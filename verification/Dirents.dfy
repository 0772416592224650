/** Packing the records of a new directory: no record crosses a block, and the records tile the blocks. */
module Dirents {
  import opened Arith
  import opened Bytes

  /** A directory record; the name is a string of bytes. */
  datatype Record = Record(inum: nat, recLen: nat, name: seq<byte>, ftype: nat)

  /** A name to be added, with the inode number and type stored for it. */
  datatype Item = Item(inum: nat, name: seq<byte>, ftype: nat)

  /** The records written so far and the running offset behind them. */
  datatype Packed = Packed(records: seq<Record>, offset: nat)

  const FT_DIR: nat := 2

  /** Names as file systems have them: 1 to 255 bytes. */
  predicate Named(items: seq<Item>) {
    forall i :: 0 <= i < |items| ==> ValidName(items[i].name)
  }

  predicate ValidName(name: seq<byte>) {
    0 < |name| < 256
  }

  predicate ValidBlock(bs: nat) {
    1024 <= bs < 0x1_0000
  }

  function RecordLen(name: seq<byte>): nat {
    8 + Align(|name|, 4)
  }

  /** The bytes to skip so that a record of n bytes at `offset` does not cross the end of a block. */
  function Padding(offset: nat, n: nat, bs: pos): nat
    requires n > 0
  {
    var first, last := offset / bs, (offset + n - 1) / bs;
    if first == last then 0 else (PadIsNat(offset, n, bs); last * bs - offset)
  }

  lemma PadIsNat(offset: nat, n: nat, bs: pos)
    requires n > 0 && offset / bs != (offset + n - 1) / bs
    ensures (offset + n - 1) / bs * bs >= offset
  {
    var first, last := offset / bs, (offset + n - 1) / bs;
    DivModParts(offset, bs);
    DivMonotone(offset, offset + n - 1, bs);
    MulMonotone(first + 1, last, bs);
    assert (first + 1) * bs == first * bs + bs;
  }

  /** The last record made longer. */
  function Stretch(rs: seq<Record>, more: nat): (r: seq<Record>)
    requires rs != []
    ensures |r| == |rs|
  {
    rs[|rs| - 1 := rs[|rs| - 1].(recLen := rs[|rs| - 1].recLen + more)]
  }

  /** The item as it is stored: the length of the name is kept in one byte, and only that many bytes are copied. */
  function Stored(item: Item): (r: Item)
    ensures |r.name| < 256 && (|item.name| < 256 ==> r == item)
  {
    item.(name := item.name[..|item.name| % 256])
  }

  /** add_dentry: the record goes behind the others, the one before it being stretched to the end of its block if
      the new one would not fit there. Without a record before it that stops the program. */
  function Add(p: Packed, item: Item, bs: pos): (r: Packed)
    requires p.records != [] || Padding(p.offset, RecordLen(item.name), bs) == 0
    ensures |r.records| == |p.records| + 1
  {
    var n := RecordLen(item.name);
    var pad := Padding(p.offset, n, bs);
    var before := if pad == 0 then p.records else Stretch(p.records, pad);
    Packed(before + [Record(item.inum, n, item.name, item.ftype)], p.offset + pad + n)
  }

  function AddAll(p: Packed, items: seq<Item>, bs: pos): (r: Packed)
    requires p.records != []
    ensures |r.records| == |p.records| + |items|
    decreases |items|
  {
    if items == [] then p else AddAll(Add(p, items[0], bs), items[1..], bs)
  }

  const DOT: byte := 46

  /** The directory's own record and its parent's. */
  function Dots(self: nat, parent: nat): Packed {
    Packed([Record(self, 12, [DOT], FT_DIR), Record(parent, 12, [DOT, DOT], FT_DIR)], 24)
  }

  /** All the records before the last one is stretched to the end of the last block. */
  function PackedDir(self: nat, parent: nat, items: seq<Item>, bs: pos): (r: Packed)
    ensures |r.records| == |items| + 2
  {
    AddAll(Dots(self, parent), items, bs)
  }

  /** The size estimate made before the blocks are allocated. */
  function DentrySize(items: seq<Item>, bs: pos): nat {
    SizeFrom(24, items, bs)
  }

  function SizeFrom(len: nat, items: seq<Item>, bs: pos): nat
    decreases |items|
  {
    if items == [] then len else
    var n := RecordLen(items[0].name);
    SizeFrom((if len % bs + n > bs then len + (bs - len % bs) else len) + n, items[1..], bs)
  }

  /** The bytes of the directory's blocks. */
  function DirBytes(items: seq<Item>, bs: pos): nat {
    DivRoundUp(DentrySize(items, bs), bs) * bs
  }

  /** The finished directory: the last record reaches the end of the last block. */
  function Finished(self: nat, parent: nat, items: seq<Item>, bs: pos): (r: seq<Record>)
    requires Named(items) && ValidBlock(bs)
    ensures |r| == |items| + 2
  {
    PackedEndsAtEstimate(self, parent, items, bs);
    var p := PackedDir(self, parent, items, bs);
    Stretch(p.records, DirBytes(items, bs) - p.offset)
  }

  // ----- where the records are

  /** The byte at which record k starts. */
  function Start(rs: seq<Record>, k: nat): nat
    requires k <= |rs|
  {
    if k == 0 then 0 else Start(rs, k - 1) + rs[k - 1].recLen
  }

  /** Record k has room for its name, and lies in one block. */
  ghost predicate RecordFits(rs: seq<Record>, k: nat, bs: pos)
    requires k < |rs|
  {
    && 8 + |rs[k].name| <= rs[k].recLen <= bs
    && Start(rs, k) / bs == (Start(rs, k) + rs[k].recLen - 1) / bs
  }

  /** The records end at `offset`, and each lies in one block. */
  ghost predicate Tiles(rs: seq<Record>, offset: nat, bs: pos) {
    Start(rs, |rs|) == offset && forall k: nat | k < |rs| :: RecordFits(rs, k, bs)
  }

  lemma {:induction false} StartSame(xs: seq<Record>, ys: seq<Record>, k: nat)
    requires k <= |xs| && k <= |ys| && forall i :: 0 <= i < k ==> xs[i].recLen == ys[i].recLen
    ensures Start(xs, k) == Start(ys, k)
  {
    if k > 0 { StartSame(xs, ys, k - 1); }
  }

  lemma RecordLenBounds(name: seq<byte>)
    ensures 8 + |name| <= RecordLen(name) < 12 + |name|
    ensures |name| > 0 ==> RecordLen(name) >= 12
  {
    AlignBounds(|name|, 4);
  }

  /** The padding ends at the next block, and the two ways of asking whether it is needed agree. */
  lemma PaddingIs(offset: nat, n: nat, bs: pos)
    requires 0 < n <= bs
    ensures Padding(offset, n, bs) == if offset % bs + n > bs then bs - offset % bs else 0
    ensures var at := offset + Padding(offset, n, bs); at / bs == (at + n - 1) / bs
    ensures Padding(offset, n, bs) > 0 ==> offset > 0 && offset + Padding(offset, n, bs) == (offset / bs + 1) * bs
  {
    var q: nat, r: nat := offset / bs, offset % bs;
    var b: nat := bs;
    DivModParts(offset, bs);
    if r + n > b {
      assert (q + 1) * b == q * b + b;
      DivModUnique(bs, q + 1, r + n - 1 - b);
      DivModUnique(bs, q + 1, 0);
      DivModUnique(bs, q + 1, n - 1);
    } else {
      DivModUnique(bs, q, r + n - 1);
    }
  }

  /** A record ends within the block of its start when something is there to be padded. */
  lemma StretchFits(start: nat, len: nat, pad: nat, bs: pos)
    requires len > 0 && start / bs == (start + len - 1) / bs
    requires pad > 0 && start + len + pad == ((start + len) / bs + 1) * bs && (start + len) % bs > 0
    ensures start / bs == (start + len + pad - 1) / bs
    ensures len + pad <= bs
  {
    var end := start + len;
    var q: nat, r: nat := end / bs, end % bs;
    DivModParts(end, bs);
    DivModParts(start, bs);
    assert end - 1 == q * bs + (r - 1);
    DivModUnique(bs, q, r - 1);
    assert (q + 1) * bs == q * bs + bs;
    var k: nat := bs - 1;
    DivModUnique(bs, q, k);
  }

  // ----- what adding records keeps

  lemma FitsAlso(rs: seq<Record>, ys: seq<Record>, k: nat, bs: pos)
    requires k < |rs| && RecordFits(rs, k, bs) && k < |ys| && forall i :: 0 <= i <= k ==> ys[i] == rs[i]
    ensures RecordFits(ys, k, bs)
  {
    StartSame(rs, ys, k);
  }

  lemma StretchTiles(rs: seq<Record>, offset: nat, pad: nat, bs: pos)
    requires rs != [] && Tiles(rs, offset, bs) &&
      (pad > 0 ==> offset % bs > 0 && offset + pad == (offset / bs + 1) * bs)
    ensures Tiles(Stretch(rs, pad), offset + pad, bs)
  {
    hide RecordFits;
    var n: nat := |rs| - 1;
    var ys := Stretch(rs, pad);
    StartSame(rs, ys, n);
    LastFits(rs, offset, pad, bs);
    forall k: nat | k < |ys|
      ensures RecordFits(ys, k, bs)
    {
      if k < n { FitsAlso(rs, ys, k, bs); } else { assert k == n; }
    }
  }

  /** The last record, stretched. */
  lemma LastFits(rs: seq<Record>, offset: nat, pad: nat, bs: pos)
    requires rs != [] && Start(rs, |rs|) == offset && RecordFits(rs, |rs| - 1, bs) &&
      (pad > 0 ==> offset % bs > 0 && offset + pad == (offset / bs + 1) * bs)
    ensures RecordFits(Stretch(rs, pad), |rs| - 1, bs)
  {
    var n: nat := |rs| - 1;
    StartSame(rs, Stretch(rs, pad), n);
    if pad > 0 { StretchFits(Start(rs, n), rs[n].recLen, pad, bs); }
  }

  lemma AppendTiles(rs: seq<Record>, offset: nat, r: Record, bs: pos)
    requires Tiles(rs, offset, bs) && 8 + |r.name| <= r.recLen <= bs && offset / bs == (offset + r.recLen - 1) / bs
    ensures Tiles(rs + [r], offset + r.recLen, bs)
  {
    var ys := rs + [r];
    StartSame(rs, ys, |rs|);
    forall k: nat | k < |ys|
      ensures RecordFits(ys, k, bs)
    {
      if k < |rs| {
        FitsAlso(rs, ys, k, bs);
      } else {
        assert ys[k] == r && Start(ys, k) == offset;
      }
    }
  }

  /** A record added keeps the tiling, and moves the offset as the size estimate does. */
  lemma AddTiles(p: Packed, item: Item, bs: pos)
    requires p.records != [] && Tiles(p.records, p.offset, bs) && |item.name| < 256 && ValidBlock(bs)
    ensures Tiles(Add(p, item, bs).records, Add(p, item, bs).offset, bs)
    ensures Add(p, item, bs).offset == SizeFrom(p.offset, [item], bs) > p.offset
  {
    hide Tiles, Padding;
    var n := RecordLen(item.name);
    RecordLenBounds(item.name);
    var pad := Padding(p.offset, n, bs);
    PaddingIs(p.offset, n, bs);
    if pad > 0 { StretchTiles(p.records, p.offset, pad, bs); }
    assert [item][1..] == [];
    var before := if pad == 0 then p.records else Stretch(p.records, pad);
    AppendTiles(before, p.offset + pad, Record(item.inum, n, item.name, item.ftype), bs);
  }

  lemma {:induction false} AddAllTiles(p: Packed, items: seq<Item>, bs: pos)
    requires p.records != [] && Tiles(p.records, p.offset, bs) && Named(items) && ValidBlock(bs)
    ensures Tiles(AddAll(p, items, bs).records, AddAll(p, items, bs).offset, bs)
    ensures AddAll(p, items, bs).offset == SizeFrom(p.offset, items, bs) >= p.offset
    decreases |items|
  {
    hide Tiles, Add, SizeFrom;
    if items == [] {
      SizeFromNone(p.offset, bs);
    } else {
      AddTiles(p, items[0], bs);
      AddAllTiles(Add(p, items[0], bs), items[1..], bs);
      SizeFromStep(p.offset, items, bs);
    }
  }

  lemma SizeFromNone(len: nat, bs: pos)
    ensures SizeFrom(len, [], bs) == len
  {
  }

  lemma SizeFromStep(len: nat, items: seq<Item>, bs: pos)
    requires items != []
    ensures SizeFrom(len, items, bs) == SizeFrom(SizeFrom(len, [items[0]], bs), items[1..], bs)
  {
    assert [items[0]][1..] == [];
  }

  lemma DotsTile(self: nat, parent: nat, bs: pos)
    requires ValidBlock(bs)
    ensures Tiles(Dots(self, parent).records, 24, bs)
  {
    hide RecordFits;
    var rs := Dots(self, parent).records;
    DivModUnique(bs, 0, 0);
    DivModUnique(bs, 0, 11);
    DivModUnique(bs, 0, 12);
    DivModUnique(bs, 0, 23);
    assert Start([], 0) == 0;
    AppendTiles([], 0, rs[0], bs);
    AppendTiles([] + [rs[0]], 12, rs[1], bs);
    assert [] + [rs[0]] + [rs[1]] == rs;
  }

  /** The records end exactly where the size estimate says. */
  lemma PackedEndsAtEstimate(self: nat, parent: nat, items: seq<Item>, bs: pos)
    requires Named(items) && ValidBlock(bs)
    ensures PackedDir(self, parent, items, bs).offset == DentrySize(items, bs) <= DirBytes(items, bs)
    ensures Tiles(PackedDir(self, parent, items, bs).records, PackedDir(self, parent, items, bs).offset, bs)
  {
    DotsTile(self, parent, bs);
    AddAllTiles(Dots(self, parent), items, bs);
    DivRoundUpBounds(DentrySize(items, bs), bs);
  }

  /** The finished records tile the directory's blocks exactly. */
  lemma FinishedTiles(self: nat, parent: nat, items: seq<Item>, bs: pos)
    requires Named(items) && ValidBlock(bs)
    ensures Tiles(Finished(self, parent, items, bs), DirBytes(items, bs), bs)
  {
    hide Tiles, PackedDir;
    PackedEndsAtEstimate(self, parent, items, bs);
    var p := PackedDir(self, parent, items, bs);
    LastBlockRest(p.offset, bs);
    StretchTiles(p.records, p.offset, DirBytes(items, bs) - p.offset, bs);
  }

  lemma LastBlockRest(n: nat, bs: pos)
    ensures var end := DivRoundUp(n, bs) * bs;
      end >= n && (end > n ==> n % bs > 0 && end == (n / bs + 1) * bs)
  {
    var q: nat, r: nat, k: nat := n / bs, n % bs, bs - 1;
    DivModParts(n, bs);
    if r == 0 {
      DivModUnique(bs, q, k);
    } else {
      DivModUnique(bs, q + 1, r - 1);
      assert (q + 1) * bs == q * bs + bs;
    }
  }

  /** Every block of the directory begins with a record. */
  lemma {:induction false} BlocksBeginWithRecords(rs: seq<Record>, offset: nat, bs: pos, b: nat, n: nat)
    requires Tiles(rs, offset, bs) && n <= |rs| && b * bs < Start(rs, n)
    ensures exists k: nat :: k < n && Start(rs, k) == b * bs
  {
    if n > 0 {
      var s := Start(rs, n - 1);
      assert RecordFits(rs, n - 1, bs);
      if b * bs < s {
        BlocksBeginWithRecords(rs, offset, bs, b, n - 1);
      } else {
        WithinBlock(s, rs[n - 1].recLen, b, bs);
        assert Start(rs, n - 1) == b * bs;
      }
    }
  }

  lemma WithinBlock(s: nat, len: nat, b: nat, bs: pos)
    requires s <= b * bs < s + len && s / bs == (s + len - 1) / bs
    ensures s == b * bs
  {
    DivMonotone(b * bs, s + len - 1, bs);
    DivModUnique(bs, b, 0);
    MulMonotone(b, s / bs, bs);
    DivModParts(s, bs);
  }

  // ----- the check for records that end past the blocks

  /** Offsets only grow, and the last one is the estimate, so the "internal error" exit is not taken:
      after item i the offset is not past the end, nor at it before the last item. */
  lemma NoInternalError(self: nat, parent: nat, items: seq<Item>, bs: pos, i: nat)
    requires Named(items) && ValidBlock(bs) && i < |items|
    ensures var offset := PackedDir(self, parent, items[..i + 1], bs).offset;
      !(offset > DirBytes(items, bs) || (offset == DirBytes(items, bs) && i != |items| - 1))
  {
    hide Tiles, AddAll;
    PackedEndsAtEstimate(self, parent, items, bs);
    var p := PackedDir(self, parent, items[..i + 1], bs);
    PackedEndsAtEstimate(self, parent, items[..i + 1], bs);
    assert items == items[..i + 1] + items[i + 1..];
    AddAllAppends(Dots(self, parent), items[..i + 1], items[i + 1..], bs);
    if i + 1 < |items| {
      OffsetGrows(p, items[i + 1..], bs);
    } else {
      assert items[..i + 1] == items;
    }
  }

  lemma {:induction false} AddAllAppends(p: Packed, xs: seq<Item>, ys: seq<Item>, bs: pos)
    requires p.records != []
    ensures AddAll(p, xs + ys, bs) == AddAll(AddAll(p, xs, bs), ys, bs)
    decreases |xs|
  {
    if xs == [] {
      assert xs + ys == ys;
    } else {
      assert (xs + ys)[1..] == xs[1..] + ys;
      AddAllAppends(Add(p, xs[0], bs), xs[1..], ys, bs);
    }
  }

  lemma OffsetGrows(p: Packed, items: seq<Item>, bs: pos)
    requires p.records != [] && Tiles(p.records, p.offset, bs) && Named(items) && ValidBlock(bs) && items != []
    ensures AddAll(p, items, bs).offset > p.offset
  {
    AddTiles(p, items[0], bs);
    AddAllTiles(Add(p, items[0], bs), items[1..], bs);
  }

  // ----- the names

  lemma {:induction false} AddAllNames(p: Packed, items: seq<Item>, bs: pos, k: nat)
    requires p.records != [] && k < |p.records| + |items|
    ensures var r := AddAll(p, items, bs).records[k];
      if k < |p.records| then
        var q := p.records[k]; (r.inum, r.name, r.ftype) == (q.inum, q.name, q.ftype) && r.recLen >= q.recLen
      else
        var q := items[k - |p.records|];
        (r.inum, r.name, r.ftype) == (q.inum, q.name, q.ftype) && r.recLen >= RecordLen(q.name)
    decreases |items|
  {
    hide Padding, RecordLen;
    if items != [] { AddAllNames(Add(p, items[0], bs), items[1..], bs, k); }
  }

  /** The finished directory lists itself, its parent and the items in order. */
  lemma FinishedNames(self: nat, parent: nat, items: seq<Item>, bs: pos, k: nat)
    requires Named(items) && ValidBlock(bs) && k < |items| + 2
    ensures var r := Finished(self, parent, items, bs)[k];
      (r.inum, r.name, r.ftype) ==
        if k == 0 then (self, [46], 2) else if k == 1 then (parent, [46, 46], 2)
        else (items[k - 2].inum, items[k - 2].name, items[k - 2].ftype)
    ensures Finished(self, parent, items, bs)[k].recLen >= 12
  {
    PackedEndsAtEstimate(self, parent, items, bs);
    AddAllNames(Dots(self, parent), items, bs, k);
    if k >= 2 { RecordLenBounds(items[k - 2].name); }
  }

  // ----- no record is longer than it has to be

  /** Record k is as long as its name needs, or reaches the end of a block in which the next record does not fit. */
  ghost predicate Snug(rs: seq<Record>, k: nat, bs: pos)
    requires k < |rs|
  {
    || rs[k].recLen == RecordLen(rs[k].name)
    || (&& Start(rs, k + 1) % bs == 0
        && (k + 1 < |rs| ==> (Start(rs, k) + RecordLen(rs[k].name)) % bs + RecordLen(rs[k + 1].name) > bs))
  }

  /** Before the last record is stretched it has the length its name needs. */
  ghost predicate AllSnug(p: Packed, bs: pos) {
    && p.records != [] && Start(p.records, |p.records|) == p.offset
    && p.records[|p.records| - 1].recLen == RecordLen(p.records[|p.records| - 1].name)
    && forall k: nat | k < |p.records| :: Snug(p.records, k, bs)
  }

  lemma SnugAlso(rs: seq<Record>, ys: seq<Record>, k: nat, bs: pos)
    requires k + 1 < |rs| <= |ys| && Snug(rs, k, bs)
    requires forall i :: 0 <= i < |rs| ==> ys[i].name == rs[i].name
    requires forall i :: 0 <= i <= k ==> ys[i].recLen == rs[i].recLen
    ensures Snug(ys, k, bs)
  {
    hide RecordLen;
    StartSame(rs, ys, k);
    StartSame(rs, ys, k + 1);
  }

  lemma StretchEnds(rs: seq<Record>, more: nat)
    requires rs != []
    ensures Start(rs, |rs|) == Start(rs, |rs| - 1) + rs[|rs| - 1].recLen
    ensures Start(Stretch(rs, more), |rs| - 1) == Start(rs, |rs| - 1)
    ensures Start(Stretch(rs, more), |rs|) == Start(rs, |rs|) + more
  {
    StartSame(rs, Stretch(rs, more), |rs| - 1);
  }

  lemma AddSnug(p: Packed, item: Item, bs: pos)
    requires AllSnug(p, bs) && RecordLen(item.name) <= bs
    ensures AllSnug(Add(p, item, bs), bs)
  {
    hide RecordLen, Padding, Stretch, Snug;
    var n, rs := RecordLen(item.name), p.records;
    RecordLenBounds(item.name);
    var pad, last: nat := Padding(p.offset, n, bs), |rs| - 1;
    PaddingIs(p.offset, n, bs);
    var before := if pad == 0 then rs else Stretch(rs, pad);
    BeforeIs(rs, pad, before);
    var ys := before + [Record(item.inum, n, item.name, item.ftype)];
    StartSame(before, ys, |rs|);
    StartSame(before, ys, last);
    AddedSnug(ys, |rs|, bs);
    forall k: nat | k <= last
      ensures Snug(ys, k, bs)
    {
      if k < last { SnugAlso(rs, ys, k, bs); } else { LastSnug(p, ys, pad, n, bs); }
    }
  }

  lemma BeforeIs(rs: seq<Record>, pad: nat, before: seq<Record>)
    requires rs != [] && before == if pad == 0 then rs else Stretch(rs, pad)
    ensures |before| == |rs| && (forall i :: 0 <= i < |rs| ==> before[i].name == rs[i].name)
    ensures forall i :: 0 <= i < |rs| - 1 ==> before[i] == rs[i]
    ensures before[|rs| - 1].recLen == rs[|rs| - 1].recLen + pad
    ensures Start(before, |rs| - 1) == Start(rs, |rs| - 1) && Start(before, |rs|) == Start(rs, |rs|) + pad
  {
    hide Start;
    StretchEnds(rs, pad);
    SameWhenNone(rs);
  }

  lemma SameWhenNone(rs: seq<Record>)
    requires rs != []
    ensures Stretch(rs, 0) == rs
  {
  }

  lemma AddedSnug(ys: seq<Record>, k: nat, bs: pos)
    requires k < |ys| && ys[k].recLen == RecordLen(ys[k].name)
    ensures Snug(ys, k, bs)
  {
  }

  /** The record in front of the added one. */
  lemma LastSnug(p: Packed, ys: seq<Record>, pad: nat, n: nat, bs: pos)
    requires AllSnug(p, bs) && |ys| == |p.records| + 1
    requires n == RecordLen(ys[|p.records|].name)
    requires pad == if p.offset % bs + n > bs then bs - p.offset % bs else 0
    requires pad > 0 ==> p.offset + pad == (p.offset / bs + 1) * bs
    requires ys[|p.records| - 1].name == p.records[|p.records| - 1].name
    requires ys[|p.records| - 1].recLen == p.records[|p.records| - 1].recLen + pad
    requires Start(ys, |p.records| - 1) == Start(p.records, |p.records| - 1)
    requires Start(ys, |p.records|) == p.offset + pad
    ensures Snug(ys, |p.records| - 1, bs)
  {
    hide RecordLen;
    StretchEnds(p.records, 0);
    if pad > 0 { DivModUnique(bs, p.offset / bs + 1, 0); }
  }

  lemma {:induction false} AddAllSnug(p: Packed, items: seq<Item>, bs: pos)
    requires AllSnug(p, bs) && Named(items) && ValidBlock(bs)
    ensures AllSnug(AddAll(p, items, bs), bs)
    decreases |items|
  {
    hide AllSnug, Add;
    if items != [] {
      SnugNotEmpty(p, bs);
      RecordLenBounds(items[0].name);
      AddSnug(p, items[0], bs);
      SnugNotEmpty(Add(p, items[0], bs), bs);
      AddAllSnug(Add(p, items[0], bs), items[1..], bs);
    }
  }

  lemma SnugNotEmpty(p: Packed, bs: pos)
    requires AllSnug(p, bs)
    ensures p.records != []
  {
  }

  lemma DotsSnug(self: nat, parent: nat, bs: pos)
    ensures AllSnug(Dots(self, parent), bs)
  {
    var rs := Dots(self, parent).records;
    assert RecordLen([DOT]) == 12 && RecordLen([DOT, DOT]) == 12;
    assert Start(rs, 2) == Start(rs, 1) + 12 && Start(rs, 1) == 12;
  }

  /** A finished record is longer than its name needs only to reach the end of a block: that of the
      directory, or one in which the next record does not fit. */
  lemma FinishedSnug(self: nat, parent: nat, items: seq<Item>, bs: pos, k: nat)
    requires Named(items) && ValidBlock(bs) && k < |items| + 2
    ensures Snug(Finished(self, parent, items, bs), k, bs)
  {
    hide RecordLen, DirBytes, PackedDir, Snug, DentrySize;
    PackedEndsAtEstimate(self, parent, items, bs);
    var p := PackedOf(self, parent, items, bs);
    var rs, more: nat := p.records, DirBytes(items, bs) - p.offset;
    StretchEnds(rs, more);
    if k + 1 < |rs| {
      SnugAlso(rs, Stretch(rs, more), k, bs);
    } else {
      EndSnug(Stretch(rs, more), DirBytes(items, bs), bs, items);
    }
  }

  lemma PackedOf(self: nat, parent: nat, items: seq<Item>, bs: pos) returns (p: Packed)
    requires Named(items) && ValidBlock(bs)
    ensures p == PackedDir(self, parent, items, bs) && AllSnug(p, bs)
  {
    p := PackedDir(self, parent, items, bs);
    DotsSnug(self, parent, bs);
    AddAllSnug(Dots(self, parent), items, bs);
  }

  lemma EndSnug(rs: seq<Record>, end: nat, bs: pos, items: seq<Item>)
    requires rs != [] && Start(rs, |rs|) == end && end == DirBytes(items, bs)
    ensures Snug(rs, |rs| - 1, bs)
  {
    hide DentrySize;
    DivModUnique(bs, DivRoundUp(DentrySize(items, bs), bs), 0);
  }

  /** Records start at multiples of 4 and have lengths that are multiples of 4. */
  lemma {:induction false} FinishedAligned(self: nat, parent: nat, items: seq<Item>, bs: pos, k: nat)
    requires Named(items) && ValidBlock(bs) && bs % 4 == 0 && k <= |items| + 2
    ensures Start(Finished(self, parent, items, bs), k) % 4 == 0
    ensures k < |items| + 2 ==> Finished(self, parent, items, bs)[k].recLen % 4 == 0
    decreases k
  {
    hide Finished, RecordLen;
    var rs := Finished(self, parent, items, bs);
    if k > 0 { FinishedAligned(self, parent, items, bs, k - 1); }
    if k < |rs| {
      FinishedSnug(self, parent, items, bs, k);
      SnugIsAligned(rs, k, bs);
    }
  }

  lemma SnugIsAligned(rs: seq<Record>, k: nat, bs: pos)
    requires k < |rs| && Snug(rs, k, bs) && Start(rs, k) % 4 == 0 && bs % 4 == 0
    ensures rs[k].recLen % 4 == 0
  {
    hide RecordLen;
    RecordLenAligned(rs[k].name);
    if rs[k].recLen != RecordLen(rs[k].name) {
      MultipleOfFour(Start(rs, k + 1), bs);
      Difference(Start(rs, k), rs[k].recLen);
    }
  }

  lemma Difference(x: nat, y: nat)
    requires x % 4 == 0 && (x + y) % 4 == 0
    ensures y % 4 == 0
  {
  }

  lemma RecordLenAligned(name: seq<byte>)
    ensures RecordLen(name) % 4 == 0
  {
    AlignBounds(|name|, 4);
  }

  lemma MultipleOfFour(n: nat, bs: pos)
    requires n % bs == 0 && bs % 4 == 0
    ensures n % 4 == 0
  {
    DivModParts(n, bs);
    var q, c := n / bs, bs / 4;
    assert n == q * (4 * c) == q * c * 4;
    DivModUnique(4, q * c, 0);
  }
}
