/** The bytes of a directory: written by the image builder, read by the renumbering tool. */
module DirImage {
  import opened Arith
  import opened Bytes
  import opened Dirents

  const ROOT_INO: nat := 2

  /** The bytes at `at` are the header and the name of a record. */
  ghost predicate Holds(data: seq<byte>, at: nat, r: Record) {
    && at + 8 + |r.name| <= |data| && |r.name| < 256 && r.ftype < 256
    && U32At(data, at) == r.inum && U16At(data, at + 4) == r.recLen
    && data[at + 6] == |r.name| && data[at + 7] == r.ftype
    && data[at + 8..at + 8 + |r.name|] == r.name
  }

  /** The buffer holds the records, one behind the other from its start. */
  ghost predicate Image(data: seq<byte>, rs: seq<Record>) {
    forall k: nat | k < |rs| :: Holds(data, Start(rs, k), rs[k])
  }

  /** Byte x belongs to the header or the name of a record. */
  ghost predicate InRecord(rs: seq<Record>, x: nat) {
    exists k: nat :: k < |rs| && Start(rs, k) <= x < Start(rs, k) + 8 + |rs[k].name|
  }

  /** All other bytes are zero. */
  ghost predicate Blank(data: seq<byte>, rs: seq<Record>) {
    forall x: nat | x < |data| && !InRecord(rs, x) :: data[x] == 0
  }

  // ----- writing

  function Header(r: Record): (h: seq<byte>)
    requires |r.name| < 256 && r.ftype < 256
    ensures |h| == 8
  {
    var len: byte, kind: byte := |r.name|, r.ftype;
    LE4(r.inum) + LE2(r.recLen) + [len, kind]
  }

  lemma SameField(x: seq<byte>, y: seq<byte>, at: nat, n: nat)
    requires at + n <= |x| && at + n <= |y| && Agree(x, y, at, at + n)
    ensures n == 2 ==> U16At(x, at) == U16At(y, at)
    ensures n == 4 ==> U32At(x, at) == U32At(y, at)
  {
  }

  /** The name and the two single bytes of a record just written. */
  lemma HeaderNames(data: seq<byte>, at: nat, r: Record)
    requires at + 8 + |r.name| <= |data| && |r.name| < 256 && r.ftype < 256
    ensures var d := Put(data, at, Header(r) + r.name);
      d[at + 6] == |r.name| && d[at + 7] == r.ftype && d[at + 8..at + 8 + |r.name|] == r.name
  {
    hide LE4, LE2;
    var bs := Header(r) + r.name;
    var d := Put(data, at, bs);
    assert d[at + 6] == bs[6] == Header(r)[6] && d[at + 7] == bs[7] == Header(r)[7];
    forall k | 0 <= k < |r.name|
      ensures d[at + 8..at + 8 + |r.name|][k] == r.name[k]
    {
      assert d[at + 8 + k] == bs[8 + k];
    }
  }

  /** The two numbers in its header. */
  lemma HeaderNumbers(data: seq<byte>, at: nat, r: Record)
    requires at + 8 + |r.name| <= |data| && |r.name| < 256 && r.ftype < 256 && r.inum < 0x1_0000_0000
      && r.recLen < 0x1_0000
    ensures var d := Put(data, at, Header(r) + r.name); U32At(d, at) == r.inum && U16At(d, at + 4) == r.recLen
  {
    hide LE4, LE2, U32At, U16At;
    var bs := Header(r) + r.name;
    var d := Put(data, at, bs);
    var x, y := Put(data, at, LE4(r.inum)), Put(data, at + 4, LE2(r.recLen));
    Write32(data, at, r.inum);
    Write16(data, at + 4, r.recLen);
    forall k | at <= k < at + 4
      ensures d[k] == x[k]
    {
      assert d[k] == bs[k - at] == Header(r)[k - at] == LE4(r.inum)[k - at];
    }
    forall k | at + 4 <= k < at + 6
      ensures d[k] == y[k]
    {
      assert d[k] == bs[k - at] == Header(r)[k - at] == LE2(r.recLen)[k - at - 4];
    }
    SameField(d, x, at, 4);
    SameField(d, y, at + 4, 2);
  }

  lemma HeaderHolds(data: seq<byte>, at: nat, r: Record)
    requires at + 8 + |r.name| <= |data| && |r.name| < 256 && r.ftype < 256 && r.inum < 0x1_0000_0000
      && r.recLen < 0x1_0000
    ensures Holds(Put(data, at, Header(r) + r.name), at, r)
  {
    hide Header, Put;
    HeaderNames(data, at, r);
    HeaderNumbers(data, at, r);
  }

  /** A record is not affected by writes outside it. */
  lemma HoldsFrame(x: seq<byte>, y: seq<byte>, at: nat, r: Record)
    requires Holds(x, at, r) && |y| == |x| && Agree(x, y, at, at + 8 + |r.name|)
    ensures Holds(y, at, r)
  {
    AgreeSlice(x, y, at + 8, at + 8 + |r.name|);
    SameField(x, y, at, 4);
    SameField(x, y, at + 4, 2);
  }

  /** Records that lie within the bytes before `end`. */
  ghost predicate Within(rs: seq<Record>, end: nat) {
    forall k: nat | k < |rs| :: Start(rs, k) + 8 + |rs[k].name| <= end
  }

  lemma {:induction false} StartMonotone(rs: seq<Record>, i: nat, j: nat)
    requires i <= j <= |rs|
    ensures Start(rs, i) <= Start(rs, j)
  {
    if i < j { StartMonotone(rs, i, j - 1); }
  }

  lemma TilesWithin(rs: seq<Record>, offset: nat, bs: pos)
    requires Tiles(rs, offset, bs)
    ensures Within(rs, offset)
  {
    forall k: nat | k < |rs|
      ensures Start(rs, k) + 8 + |rs[k].name| <= offset
    {
      assert RecordFits(rs, k, bs);
      StartMonotone(rs, k + 1, |rs|);
    }
  }

  /** A record written behind the others joins them. */
  lemma AppendImage(data: seq<byte>, rs: seq<Record>, r: Record, at: nat)
    requires Image(data, rs) && Within(rs, at) && Start(rs, |rs|) == at
    requires at + 8 + |r.name| <= |data| && |r.name| < 256 && r.ftype < 256 && r.inum < 0x1_0000_0000
      && r.recLen < 0x1_0000
    ensures Image(Put(data, at, Header(r) + r.name), rs + [r])
  {
    hide Holds, Header, Put, Start;
    HeaderHolds(data, at, r);
    var d := Put(data, at, Header(r) + r.name);
    forall k: nat | k < |rs| + 1
      ensures Holds(d, Start(rs + [r], k), (rs + [r])[k])
    {
      StartSame(rs, rs + [r], k);
      if k < |rs| { StillHolds(data, rs, r, at, k); } else { assert k == |rs|; }
    }
  }

  lemma StillHolds(data: seq<byte>, rs: seq<Record>, r: Record, at: nat, k: nat)
    requires k < |rs| && Holds(data, Start(rs, k), rs[k]) && Start(rs, k) + 8 + |rs[k].name| <= at
    requires at + 8 + |r.name| <= |data| && |r.name| < 256 && r.ftype < 256
    ensures Holds(Put(data, at, Header(r) + r.name), Start(rs, k), rs[k])
  {
    hide Holds, Start;
    HoldsFrame(data, Put(data, at, Header(r) + r.name), Start(rs, k), rs[k]);
  }

  /** Rewriting the length of the last record stretches it. */
  lemma StretchImage(data: seq<byte>, rs: seq<Record>, pad: nat)
    requires rs != [] && Image(data, rs)
    requires forall k: nat | k < |rs| :: 8 + |rs[k].name| <= rs[k].recLen
    requires rs[|rs| - 1].recLen + pad < 0x1_0000
    ensures Start(rs, |rs| - 1) + 6 <= |data|
    ensures Image(Put(data, Start(rs, |rs| - 1) + 4, LE2(rs[|rs| - 1].recLen + pad)), Stretch(rs, pad))
  {
    hide Holds, Put, Stretch, Start, Within, LE2;
    var n: nat := |rs| - 1;
    assert Holds(data, Start(rs, n), rs[n]);
    HoldsRoom(data, Start(rs, n), rs[n]);
    forall k: nat | k < |rs|
      ensures Holds(Put(data, Start(rs, n) + 4, LE2(rs[n].recLen + pad)), Start(Stretch(rs, pad), k),
          Stretch(rs, pad)[k])
    {
      assert Holds(data, Start(rs, k), rs[k]);
      StretchImageAt(data, rs, pad, k);
    }
  }

  lemma StretchImageAt(data: seq<byte>, rs: seq<Record>, pad: nat, k: nat)
    requires k < |rs| && Start(rs, |rs| - 1) + 6 <= |data| && Holds(data, Start(rs, k), rs[k])
    requires 8 + |rs[k].name| <= rs[k].recLen && rs[|rs| - 1].recLen + pad < 0x1_0000
    ensures Holds(Put(data, Start(rs, |rs| - 1) + 4, LE2(rs[|rs| - 1].recLen + pad)),
        Start(Stretch(rs, pad), k), Stretch(rs, pad)[k])
  {
    hide Holds;
    var n: nat := |rs| - 1;
    StartSame(rs, Stretch(rs, pad), k);
    if k < n {
      StartMonotone(rs, k + 1, n);
      HoldsRoom(data, Start(rs, k), rs[k]);
      HoldsFrame(data, Put(data, Start(rs, n) + 4, LE2(rs[n].recLen + pad)), Start(rs, k), rs[k]);
    } else {
      StretchHolds(data, Start(rs, n), rs[n], pad);
    }
  }

  lemma HoldsRoom(data: seq<byte>, at: nat, r: Record)
    requires Holds(data, at, r)
    ensures at + 8 + |r.name| <= |data|
  {
  }

  lemma StretchHolds(data: seq<byte>, at: nat, r: Record, pad: nat)
    requires Holds(data, at, r) && r.recLen + pad < 0x1_0000
    ensures Holds(Put(data, at + 4, LE2(r.recLen + pad)), at, r.(recLen := r.recLen + pad))
  {
    var d := Put(data, at + 4, LE2(r.recLen + pad));
    Write16(data, at + 4, r.recLen + pad);
    AgreeSlice(data, d, at + 8, at + 8 + |r.name|);
    SameField(data, d, at, 4);
  }

  /** Make the record in front longer. */
  method StretchPrevious(data: array<byte>, prev: nat, pad: nat, bs: pos, ghost rs: seq<Record>, ghost offset: nat)
    requires rs != [] && prev == Start(rs, |rs| - 1) && Image(data[..], rs)
    requires Tiles(rs, offset, bs) && Tiles(Stretch(rs, pad), offset + pad, bs) && bs < 0x1_0000
    modifies data
    ensures Image(data[..], Stretch(rs, pad))
    ensures forall x :: 0 <= x < data.Length && !(prev + 4 <= x < prev + 6) ==> data[x] == old(data[x])
  {
    hide Holds, Image, Tiles, Start, Stretch, Put;
    PrevIs(data[..], rs, offset, pad, bs);
    Store(data, prev + 4, LE2(U16At(data[..], prev + 4) + pad));
  }

  /** Write a record behind the others. */
  method PutRecord(data: array<byte>, at: nat, r: Record, bs: pos, ghost rs: seq<Record>)
    requires Image(data[..], rs) && Tiles(rs, at, bs)
    requires at + 8 + |r.name| <= data.Length && |r.name| < 256 && r.ftype < 256 && r.inum < 0x1_0000_0000
      && r.recLen < 0x1_0000
    modifies data
    ensures Image(data[..], rs + [r])
    ensures forall x :: 0 <= x < data.Length && !(at <= x < at + 8 + |r.name|) ==> data[x] == old(data[x])
  {
    hide Holds, Image, Tiles, Start, Put;
    TilesWithin(rs, at, bs);
    TilesEnd(rs, at, bs);
    AppendImage(data[..], rs, r, at);
    Store(data, at, Header(r) + r.name);
  }

  /** Add a record at the running offset, or behind padding when it would cross the end of its block. The new
      offset and the place of the record are returned; nothing when a record in front is missing. */
  method AddDentry(data: array<byte>, offset0: nat, prev: Option<nat>, item: Item, bs: pos, ghost p: Packed)
    returns (offset: nat, dentry: Option<nat>)
    requires ValidBlock(bs) && item.inum < 0x1_0000_0000 && item.ftype < 256
    requires Tiles(p.records, p.offset, bs) && Image(data[..], p.records) && offset0 == p.offset
    requires prev == if p.records == [] then None else Some(Start(p.records, |p.records| - 1))
    requires var n := RecordLen(Stored(item).name); offset0 + Padding(offset0, n, bs) + n <= data.Length
    modifies data
    ensures dentry.None? <==> p.records == [] && Padding(offset0, RecordLen(Stored(item).name), bs) > 0
    ensures dentry.Some? ==>
      var q := Add(p, Stored(item), bs);
      offset == q.offset && Image(data[..], q.records) && dentry.value == Start(q.records, |p.records|)
    ensures dentry.Some? ==> forall x :: 0 <= x < data.Length ==>
      || data[x] == old(data[x])
      || dentry.value <= x < dentry.value + 8 + |Stored(item).name|
      || (prev.Some? && prev.value + 4 <= x < prev.value + 6)
  {
    hide Holds, Image, Tiles, RecordFits, Padding, RecordLen, Start, Stretch;
    var nameLen := |item.name| % 256;
    var name := item.name[..nameLen];
    var recLen: nat := U16(RecordLen(name));
    RecordLenBounds(name);
    PaddingCases(offset0, recLen, bs);
    offset := offset0;
    ghost var before := p.records;
    var startBlock, endBlock := offset / bs, (offset + recLen - 1) / bs;
    if startBlock != endBlock {
      if prev.None? { return offset, None; }
      var pad: nat := endBlock * bs - offset;
      PaddingIs(offset, recLen, bs);
      StretchTiles(before, offset, pad, bs);
      StretchPrevious(data, prev.value, pad, bs, before, offset);
      before := Stretch(before, pad);
      offset := endBlock * bs;
    }
    var r := Record(item.inum, recLen, name, item.ftype);
    PutRecord(data, offset, r, bs, before);
    dentry := Some(offset);
    TilesEnd(before, offset, bs);
    AppendStart(before, r);
    offset := offset + recLen;
  }

  lemma TilesEnd(rs: seq<Record>, offset: nat, bs: pos)
    requires Tiles(rs, offset, bs)
    ensures Start(rs, |rs|) == offset
  {
  }

  lemma AppendStart(rs: seq<Record>, r: Record)
    ensures Start(rs + [r], |rs|) == Start(rs, |rs|)
  {
    StartSame(rs, rs + [r], |rs|);
  }

  lemma PaddingCases(offset: nat, n: nat, bs: pos)
    requires 0 < n <= bs
    ensures var first, last := offset / bs, (offset + n - 1) / bs;
      Padding(offset, n, bs) == (if first == last then 0 else last * bs - offset)
      && (first != last ==> last * bs > offset)
  {
    PaddingIs(offset, n, bs);
    DivModParts(offset, bs);
  }

  /** The length field of the record in front, and what rewriting it does. */
  lemma PrevIs(data: seq<byte>, rs: seq<Record>, offset: nat, pad: nat, bs: pos)
    requires rs != [] && Image(data, rs) && Tiles(rs, offset, bs) && bs < 0x1_0000
    requires Tiles(Stretch(rs, pad), offset + pad, bs)
    ensures var at := Start(rs, |rs| - 1);
      && at + 6 <= |data|
      && Image(Put(data, at + 4, LE2(U16At(data, at + 4) + pad)), Stretch(rs, pad))
  {
    hide Holds, Put, Start, Stretch, Tiles, Image;
    var n: nat := |rs| - 1;
    LastHolds(data, rs);
    LengthField(data, Start(rs, n), rs[n]);
    TilesRoom(rs, offset, bs);
    StretchBound(rs, offset + pad, pad, bs);
    StretchImage(data, rs, pad);
  }

  lemma LastHolds(data: seq<byte>, rs: seq<Record>)
    requires rs != [] && Image(data, rs)
    ensures Holds(data, Start(rs, |rs| - 1), rs[|rs| - 1])
  {
    hide Holds, Start;
    var n: nat := |rs| - 1;
  }

  lemma TilesRoom(rs: seq<Record>, offset: nat, bs: pos)
    requires Tiles(rs, offset, bs)
    ensures forall k: nat | k < |rs| :: 8 + |rs[k].name| <= rs[k].recLen
  {
    forall k: nat | k < |rs|
      ensures 8 + |rs[k].name| <= rs[k].recLen
    {
      assert RecordFits(rs, k, bs);
    }
  }

  lemma StretchBound(rs: seq<Record>, offset: nat, pad: nat, bs: pos)
    requires rs != [] && Tiles(Stretch(rs, pad), offset, bs)
    ensures rs[|rs| - 1].recLen + pad <= bs
  {
    var n: nat := |rs| - 1;
    assert RecordFits(Stretch(rs, pad), n, bs);
  }

  lemma LengthField(data: seq<byte>, at: nat, r: Record)
    requires Holds(data, at, r)
    ensures at + 6 <= |data| && U16At(data, at + 4) == r.recLen
  {
  }
}
