/** Building a directory, and reading it back. */
module MakeDir {
  import opened Arith
  import opened Bytes
  import opened Dirents
  import opened DirImage
  import F = Fixup
  import P = FixupPass

  method DentrySizeOf(items: seq<Item>, bs: pos) returns (len: nat)
    ensures len == DentrySize(items, bs)
  {
    len := 24;
    for i := 0 to |items|
      invariant SizeFrom(24, items, bs) == SizeFrom(len, items[i..], bs)
    {
      assert items[i..][0] == items[i] && items[i..][1..] == items[i + 1..];
      var dentryLen := RecordLen(items[i].name);
      if len % bs + dentryLen > bs { len := len + (bs - len % bs); }
      len := len + dentryLen;
    }
  }

  /** The records after one more item. */
  lemma PackedStep(self: nat, parent: nat, items: seq<Item>, bs: pos, i: nat)
    requires i < |items|
    ensures PackedDir(self, parent, items[..i + 1], bs) == Add(PackedDir(self, parent, items[..i], bs), items[i], bs)
  {
    assert items[..i + 1] == items[..i] + [items[i]];
    AddAllAppends(Dots(self, parent), items[..i], [items[i]], bs);
    assert [items[i]][1..] == [];
  }

  lemma DotsAre(self: nat, parent: nat, bs: pos)
    requires ValidBlock(bs)
    ensures var p := Packed([], 0);
      && Padding(0, RecordLen([DOT]), bs) == 0 && RecordLen([DOT]) == 12
      && Padding(12, RecordLen([DOT, DOT]), bs) == 0 && RecordLen([DOT, DOT]) == 12
      && Tiles([], 0, bs) && Tiles(Add(p, Item(self, [DOT], FT_DIR), bs).records, 12, bs)
      && Add(Add(p, Item(self, [DOT], FT_DIR), bs), Item(parent, [DOT, DOT], FT_DIR), bs) == Dots(self, parent)
  {
    assert Align(1, 4) == 4 && Align(2, 4) == 4;
    DivModUnique(bs, 0, 0);
    DivModUnique(bs, 0, 11);
    DivModUnique(bs, 0, 12);
    DivModUnique(bs, 0, 23);
    AppendTiles([], 0, Record(self, 12, [DOT], FT_DIR), bs);
  }

  lemma StepFits(self: nat, parent: nat, items: seq<Item>, bs: pos, i: nat)
    requires Named(items) && ValidBlock(bs) && i < |items|
    ensures var p := PackedDir(self, parent, items[..i], bs);
      && Tiles(p.records, p.offset, bs)
      && p.offset + Padding(p.offset, RecordLen(items[i].name), bs) + RecordLen(items[i].name) <= DirBytes(items, bs)
  {
    hide Tiles, Padding, RecordLen, AddAll;
    PackedEndsAtEstimate(self, parent, items[..i], bs);
    PackedStep(self, parent, items, bs, i);
    NoInternalError(self, parent, items, bs, i);
  }

  lemma StoredAsIs(items: seq<Item>, i: nat)
    requires Named(items) && i < |items|
    ensures Stored(items[i]) == items[i]
  {
  }

  /** A record keeps its place when records are added behind it or the last one is stretched. */
  lemma PlacesStay(p: Packed, item: Item, bs: pos, k: nat)
    requires k < |p.records|
    ensures Start(Add(p, item, bs).records, k) == Start(p.records, k)
  {
    StartSame(p.records, Add(p, item, bs).records, k);
  }

  lemma StretchPlaces(rs: seq<Record>, pad: nat, k: nat)
    requires k < |rs|
    ensures Start(Stretch(rs, pad), k) == Start(rs, k)
  {
    StartSame(rs, Stretch(rs, pad), k);
  }

  lemma FinishedPlaces(self: nat, parent: nat, items: seq<Item>, bs: pos, k: nat)
    requires Named(items) && ValidBlock(bs) && k < |items| + 2
    ensures Start(Finished(self, parent, items, bs), k) == Start(PackedDir(self, parent, items, bs).records, k)
  {
    hide PackedDir, Start, Stretch;
    PackedEndsAtEstimate(self, parent, items, bs);
    var p := PackedDir(self, parent, items, bs);
    StretchPlaces(p.records, DirBytes(items, bs) - p.offset, k);
  }

  /** The first two records. */
  method AddDots(data: array<byte>, self: nat, parent: nat, bs: pos) returns (offset: nat, last: nat)
    requires ValidBlock(bs) && data.Length >= 24 && self < 0x1_0000_0000 && parent < 0x1_0000_0000
    modifies data
    ensures Image(data[..], Dots(self, parent).records)
    ensures (forall x :: 0 <= x < data.Length ==> old(data[x]) == 0) ==> Blank(data[..], Dots(self, parent).records)
    ensures offset == 24 && last == 12
  {
    hide Image, Tiles, Padding, RecordLen, Blank, Stretch;
    DotsAre(self, parent, bs);
    EmptyImage(data[..]);
    ghost var was := data[..];
    ghost var zero := forall x :: 0 <= x < data.Length ==> data[x] == 0;
    if zero { ZerosAreBlank(was); }
    ghost var p := Packed([], 0);
    var dot, dotDot := Item(self, [DOT], FT_DIR), Item(parent, [DOT, DOT], FT_DIR);
    var d;
    offset, d := AddDentry(data, 0, None, dot, bs, p);
    if zero { StaysBlank(was, data[..], p, dot, bs, d.value, None); }
    p := Add(p, dot, bs);
    assert Start(p.records, 0) == 0;
    was := data[..];
    ghost var prev := d;
    offset, d := AddDentry(data, offset, d, dotDot, bs, p);
    if zero { StaysBlank(was, data[..], p, dotDot, bs, d.value, prev); }
    last := d.value;
    assert last == Start(Dots(self, parent).records, 1) == 12;
  }

  lemma EmptyImage(data: seq<byte>)
    ensures Image(data, [])
  {
  }

  lemma ZerosAreBlank(data: seq<byte>)
    requires forall x :: 0 <= x < |data| ==> data[x] == 0
    ensures Blank(data, [])
  {
  }

  lemma StillInRecord(p: Packed, item: Item, bs: pos, x: nat)
    requires p.records != [] || Padding(p.offset, RecordLen(item.name), bs) == 0
    requires InRecord(p.records, x)
    ensures InRecord(Add(p, item, bs).records, x)
  {
    hide Padding, RecordLen, Start;
    var k: nat :| k < |p.records| && Start(p.records, k) <= x < Start(p.records, k) + 8 + |p.records[k].name|;
    PlacesStay(p, item, bs, k);
    assert Add(p, item, bs).records[k].name == p.records[k].name;
  }

  lemma InLastRecord(rs: seq<Record>, x: nat)
    requires rs != [] && Start(rs, |rs| - 1) <= x < Start(rs, |rs| - 1) + 8 + |rs[|rs| - 1].name|
    ensures InRecord(rs, x)
  {
    var k: nat := |rs| - 1;
    assert Start(rs, k) <= x < Start(rs, k) + 8 + |rs[k].name|;
  }

  lemma AddedLast(p: Packed, item: Item, bs: pos)
    requires p.records != [] || Padding(p.offset, RecordLen(item.name), bs) == 0
    ensures Add(p, item, bs).records[|p.records|].name == item.name
  {
    hide Padding, RecordLen;
  }

  /** Adding a record writes nothing outside records. */
  lemma StaysBlank(was: seq<byte>, data: seq<byte>, p: Packed, item: Item, bs: pos, at: nat, prev: Option<nat>)
    requires p.records != [] || Padding(p.offset, RecordLen(item.name), bs) == 0
    requires Blank(was, p.records) && |data| == |was| && at == Start(Add(p, item, bs).records, |p.records|)
    requires prev == if p.records == [] then None else Some(Start(p.records, |p.records| - 1))
    requires forall x :: 0 <= x < |data| ==>
      || data[x] == was[x] || at <= x < at + 8 + |item.name|
      || (prev.Some? && prev.value + 4 <= x < prev.value + 6)
    ensures Blank(data, Add(p, item, bs).records)
  {
    hide Padding, RecordLen, Start, InRecord, Add;
    var rs := Add(p, item, bs).records;
    AddedLast(p, item, bs);
    forall x: nat | x < |data|
      ensures InRecord(rs, x) || data[x] == 0
    {
      if at <= x < at + 8 + |item.name| {
        InLastRecord(rs, x);
      } else if prev.Some? && prev.value + 4 <= x < prev.value + 6 {
        InLastRecord(p.records, x);
        StillInRecord(p, item, bs, x);
      } else if InRecord(p.records, x) {
        StillInRecord(p, item, bs, x);
      }
    }
  }

  /** Stretching the last record writes into its header only. */
  lemma StretchedBlank(was: seq<byte>, data: seq<byte>, rs: seq<Record>, more: nat)
    requires rs != [] && Blank(was, rs) && |data| == |was|
    requires forall x :: 0 <= x < |data| ==>
      data[x] == was[x] || Start(rs, |rs| - 1) + 4 <= x < Start(rs, |rs| - 1) + 6
    ensures Blank(data, Stretch(rs, more))
  {
    hide Start, InRecord;
    forall x: nat | x < |data|
      ensures InRecord(Stretch(rs, more), x) || data[x] == 0
    {
      if Start(rs, |rs| - 1) + 4 <= x < Start(rs, |rs| - 1) + 6 { InLastRecord(rs, x); }
      if InRecord(rs, x) { StretchedInRecord(rs, more, x); }
    }
  }

  lemma StretchedInRecord(rs: seq<Record>, more: nat, x: nat)
    requires rs != [] && InRecord(rs, x)
    ensures InRecord(Stretch(rs, more), x)
  {
    hide Start;
    var k: nat :| k < |rs| && Start(rs, k) <= x < Start(rs, k) + 8 + |rs[k].name|;
    StretchPlaces(rs, more, k);
    assert Stretch(rs, more)[k].name == rs[k].name;
  }

  /** Write the directory into a buffer of exactly its size; `places` are where the inode numbers of the items
      go once they are known. The size check that would end the program is an assertion here. */
  method MakeDirectory(dirInum: nat, newInum: nat, items: seq<Item>, bs: pos)
    returns (data: array<byte>, places: seq<nat>)
    requires ValidBlock(bs) && Named(items) && newInum < 0x1_0000_0000 && dirInum < 0x1_0000_0000
    requires forall i :: 0 <= i < |items| ==> items[i].inum == 0 && items[i].ftype < 256
    ensures fresh(data) && data.Length == DirBytes(items, bs)
    ensures var self, parent := if dirInum == 0 then 2 else newInum, if dirInum == 0 then 2 else dirInum;
      && Image(data[..], Finished(self, parent, items, bs)) && Blank(data[..], Finished(self, parent, items, bs))
      && |places| == |items| && forall j :: 0 <= j < |items| ==>
        places[j] == Start(Finished(self, parent, items, bs), j + 2)
  {
    hide Holds, Image, Tiles, Padding, RecordLen, Add, AddAll, Start, Stretch, SizeFrom, DivRoundUp, ValidName,
      Stored, Finished, PackedDir, Blank;
    var self, parent := newInum, dirInum;
    if dirInum == 0 { self, parent := ROOT_INO, ROOT_INO; }
    var size := DentrySizeOf(items, bs);
    var blocks := DivRoundUp(size, bs);
    var len: nat := blocks * bs;
    data := new byte[len](_ => 0);
    PackedEndsAtEstimate(self, parent, items, bs);
    PackedEndsAtEstimate(self, parent, [], bs);
    Enough(items, bs);
    var offset, last := AddDots(data, self, parent, bs);
    places := [];
    ghost var p := PackedDir(self, parent, items[..0], bs);
    NoItems(self, parent, items, bs);
    for i := 0 to |items|
      invariant data.Length == len == DirBytes(items, bs)
      invariant p == PackedDir(self, parent, items[..i], bs) && offset == p.offset && |p.records| == i + 2
      invariant Image(data[..], p.records) && Blank(data[..], p.records) && last == Start(p.records, i + 1)
      invariant |places| == i && forall j :: 0 <= j < i ==> places[j] == Start(p.records, j + 2)
    {
      StepFits(self, parent, items, bs, i);
      StoredAsIs(items, i);
      var d;
      ghost var was := data[..];
      offset, d := AddDentry(data, offset, Some(last), items[i], bs, p);
      StaysBlank(was, data[..], p, items[i], bs, d.value, Some(last));
      PackedStep(self, parent, items, bs, i);
      NoInternalError(self, parent, items, bs, i);
      assert !(offset > len || (offset == len && i != |items| - 1));
      forall j | 0 <= j < i + 2
        ensures Start(Add(p, items[i], bs).records, j) == Start(p.records, j)
      {
        PlacesStay(p, items[i], bs, j);
      }
      p := Add(p, items[i], bs);
      last := d.value;
      places := places + [last];
    }
    assert items[..|items|] == items;
    Finish(data, self, parent, items, bs, offset, last);
    forall j | 0 <= j < |items|
      ensures places[j] == Start(Finished(self, parent, items, bs), j + 2)
    {
      FinishedPlaces(self, parent, items, bs, j + 2);
    }
  }

  /** The last record stretched to the end of the buffer. */
  method Finish(data: array<byte>, ghost self: nat, ghost parent: nat, ghost items: seq<Item>, bs: pos,
          offset: nat, last: nat)
    requires ValidBlock(bs) && Named(items)
    requires var p := PackedDir(self, parent, items, bs);
      && Image(data[..], p.records) && Blank(data[..], p.records)
      && offset == p.offset && last == Start(p.records, |p.records| - 1)
    requires data.Length == DirBytes(items, bs)
    modifies data
    ensures Image(data[..], Finished(self, parent, items, bs)) && Blank(data[..], Finished(self, parent, items, bs))
  {
    hide Holds, Image, Tiles, Start, Stretch, PackedDir, Blank;
    PackedEndsAtEstimate(self, parent, items, bs);
    FinishedTiles(self, parent, items, bs);
    ghost var rs, was := PackedDir(self, parent, items, bs).records, data[..];
    StretchPrevious(data, last, data.Length - offset, bs, rs, offset);
    StretchedBlank(was, data[..], rs, data.Length - offset);
  }

  lemma Enough(items: seq<Item>, bs: pos)
    requires Named(items) && ValidBlock(bs)
    ensures DirBytes(items, bs) >= 24
  {
    DotsTile(0, 0, bs);
    AddAllTiles(Dots(0, 0), items, bs);
    DivRoundUpBounds(DentrySize(items, bs), bs);
  }

  lemma NoItems(self: nat, parent: nat, items: seq<Item>, bs: pos)
    ensures PackedDir(self, parent, items[..0], bs) == Dots(self, parent)
    ensures Start(Dots(self, parent).records, 1) == 12
  {
    assert items[..0] == [];
  }

  // ----- filling in the inode numbers

  /** The records with the inode numbers of the items, which follow the first two. */
  function Numbered(rs: seq<Record>, inums: seq<nat>): (r: seq<Record>)
    requires |inums| + 2 <= |rs|
    ensures |r| == |rs|
    ensures forall k :: 0 <= k < |rs| ==>
      r[k] == if 2 <= k < |inums| + 2 then rs[k].(inum := inums[k - 2]) else rs[k]
  {
    seq(|rs|, k requires 0 <= k < |rs| => if 2 <= k < |inums| + 2 then rs[k].(inum := inums[k - 2]) else rs[k])
  }

  /** Store the number of each item through the place remembered for it. */
  method FillIn(data: array<byte>, places: seq<nat>, inums: seq<nat>, ghost rs: seq<Record>, ghost offset: nat, bs: pos)
    requires Image(data[..], rs) && Tiles(rs, offset, bs)
    requires |places| == |inums| == |rs| - 2 && forall j :: 0 <= j < |places| ==> places[j] == Start(rs, j + 2)
    requires forall j :: 0 <= j < |inums| ==> inums[j] < 0x1_0000_0000
    modifies data
    ensures Image(data[..], Numbered(rs, inums))
  {
    hide Image, Tiles, Start, Put;
    assert Numbered(rs, inums[..0]) == rs;
    for i := 0 to |inums|
      invariant Image(data[..], Numbered(rs, inums[..i]))
    {
      var xs := Numbered(rs, inums[..i]);
      NumberOne(data[..], rs, inums, i, offset, bs);
      Store(data, places[i], LE4(inums[i]));
    }
    assert inums[..|inums|] == inums;
  }

  lemma NumberOne(data: seq<byte>, rs: seq<Record>, inums: seq<nat>, i: nat, offset: nat, bs: pos)
    requires i < |inums| == |rs| - 2 && inums[i] < 0x1_0000_0000
    requires Image(data, Numbered(rs, inums[..i])) && Tiles(rs, offset, bs)
    ensures Start(rs, i + 2) + 4 <= |data|
    ensures Image(Put(data, Start(rs, i + 2), LE4(inums[i])), Numbered(rs, inums[..i + 1]))
  {
    hide Holds, Start, Put, Tiles;
    var xs, ys, at := Numbered(rs, inums[..i]), Numbered(rs, inums[..i + 1]), Start(rs, i + 2);
    StartSame(rs, xs, i + 2);
    assert Holds(data, Start(xs, i + 2), xs[i + 2]);
    HoldsRoom(data, at, xs[i + 2]);
    forall k: nat | k < |rs|
      ensures Holds(Put(data, at, LE4(inums[i])), Start(ys, k), ys[k])
    {
      StartSame(rs, xs, k);
      StartSame(rs, ys, k);
      assert Holds(data, Start(xs, k), xs[k]);
      if k == i + 2 {
        NumberHolds(data, at, xs[k], inums[i]);
      } else {
        RecordsApart(rs, offset, bs, k, i + 2);
        HoldsRoom(data, Start(xs, k), xs[k]);
        HoldsFrame(data, Put(data, at, LE4(inums[i])), Start(xs, k), xs[k]);
      }
    }
  }

  lemma NumberHolds(data: seq<byte>, at: nat, r: Record, inum: nat)
    requires Holds(data, at, r) && inum < 0x1_0000_0000
    ensures Holds(Put(data, at, LE4(inum)), at, r.(inum := inum))
  {
    var d := Put(data, at, LE4(inum));
    Write32(data, at, inum);
    SameField(data, d, at + 4, 2);
    AgreeSlice(data, d, at + 8, at + 8 + |r.name|);
  }

  lemma RoomOf(rs: seq<Record>, offset: nat, bs: pos, k: nat)
    requires Tiles(rs, offset, bs) && k < |rs|
    ensures rs[k].recLen >= 8 && Start(rs, k) + 8 + |rs[k].name| <= Start(rs, k + 1) == Start(rs, k) + rs[k].recLen
  {
    assert RecordFits(rs, k, bs);
  }

  /** Different records do not share bytes. */
  lemma RecordsApart(rs: seq<Record>, offset: nat, bs: pos, i: nat, j: nat)
    requires Tiles(rs, offset, bs) && i < |rs| && j < |rs| && i != j
    ensures Start(rs, i) + 8 + |rs[i].name| <= Start(rs, j) || Start(rs, j) + 8 <= Start(rs, i)
  {
    hide Tiles, Start;
    RoomOf(rs, offset, bs, i);
    RoomOf(rs, offset, bs, j);
    if i < j { StartMonotone(rs, i + 1, j); } else { StartMonotone(rs, j + 1, i); }
  }

  // ----- reading it back

  /** The walk over a directory's bytes from `at` on: up to the end or the first zero inode number. None when a
      record runs out of the buffer or has no length, where the program would read on or never end. */
  function Parse(data: seq<byte>, at: nat): Option<seq<Record>>
    decreases |data| - at
  {
    if at >= |data| then Some([])
    else if at + 8 > |data| then None
    else if U32At(data, at) == 0 then Some([])
    else
      var len: nat := data[at + 6];
      var kind: nat := data[at + 7];
      if at + 8 + len > |data| || U16At(data, at + 4) == 0 then None
      else
        var r := Record(U32At(data, at), U16At(data, at + 4), data[at + 8..at + 8 + len], kind);
        match Parse(data, at + r.recLen)
        case None => None
        case Some(rest) => Some([r] + rest)
  }

  /** The record at `at`, where the walk goes on. */
  function RecordAt(data: seq<byte>, at: nat): Record
    requires at + 8 <= |data| && at + 8 + data[at + 6] <= |data|
  {
    var len: nat, kind: nat := data[at + 6], data[at + 7];
    Record(U32At(data, at), U16At(data, at + 4), data[at + 8..at + 8 + len], kind)
  }

  /** What is known of the whole walk when `seen` has been read and `at` is next. */
  ghost predicate Walked(data: seq<byte>, at: nat, seen: seq<Record>) {
    Parse(data, 0) == match Parse(data, at) case None => None case Some(rest) => Some(seen + rest)
  }

  lemma WalkStep(data: seq<byte>, at: nat, seen: seq<Record>)
    requires Walked(data, at, seen) && at + 8 <= |data| && U32At(data, at) != 0
    requires at + 8 + data[at + 6] <= |data| && U16At(data, at + 4) != 0
    ensures Walked(data, at + RecordAt(data, at).recLen, seen + [RecordAt(data, at)])
  {
    hide U32At, U16At, Parse;
    var r := RecordAt(data, at);
    ParseStep(data, at);
    var rest := Parse(data, at + r.recLen);
    if rest.Some? { assert seen + ([r] + rest.value) == seen + [r] + rest.value; }
  }

  lemma ParseStep(data: seq<byte>, at: nat)
    requires at + 8 <= |data| && U32At(data, at) != 0 && at + 8 + data[at + 6] <= |data| && U16At(data, at + 4) != 0
    ensures var r := RecordAt(data, at);
      Parse(data, at) ==
        match Parse(data, at + r.recLen) case None => None case Some(rest) => Some([r] + rest)
  {
    hide U32At, U16At;
  }

  lemma WalkEnds(data: seq<byte>, at: nat, seen: seq<Record>)
    requires Walked(data, at, seen)
    ensures at >= |data| ==> Parse(data, 0) == Some(seen)
    ensures at < |data| < at + 8 ==> Parse(data, 0) == None
    ensures at + 8 <= |data| && U32At(data, at) == 0 ==> Parse(data, 0) == Some(seen)
    ensures at + 8 <= |data| && U32At(data, at) != 0 && (at + 8 + data[at + 6] > |data| || U16At(data, at + 4) == 0) ==>
              Parse(data, 0) == None
  {
    hide U32At, U16At;
    assert seen + [] == seen;
  }

  lemma WalkStarts(data: seq<byte>)
    ensures Walked(data, 0, [])
  {
    hide Parse;
    if Parse(data, 0).Some? { assert [] + Parse(data, 0).value == Parse(data, 0).value; }
  }

  method ReadDirectory(data: seq<byte>) returns (rs: Option<seq<Record>>)
    ensures rs == Parse(data, 0)
  {
    hide U32At, U16At, Parse, Walked;
    var at: nat := 0;
    var seen: seq<Record> := [];
    WalkStarts(data);
    while at < |data|
      invariant Walked(data, at, seen)
      decreases |data| - at
    {
      WalkEnds(data, at, seen);
      if at + 8 > |data| { return None; }
      if U32At(data, at) == 0 { return Some(seen); }
      if at + 8 + data[at + 6] > |data| || U16At(data, at + 4) == 0 { return None; }
      WalkStep(data, at, seen);
      var r := RecordAt(data, at);
      seen, at := seen + [r], at + r.recLen;
    }
    WalkEnds(data, at, seen);
    rs := Some(seen);
  }

  lemma ParseOne(data: seq<byte>, at: nat, r: Record)
    requires Holds(data, at, r) && r.inum != 0 && r.recLen != 0
    ensures Parse(data, at) == match Parse(data, at + r.recLen) case None => None case Some(rest) => Some([r] + rest)
  {
    var len: nat := data[at + 6];
    assert data[at + 8..at + 8 + len] == r.name;
  }

  /** Reading a buffer that the records tile returns the records. */
  lemma {:induction false} ParseReturns(data: seq<byte>, rs: seq<Record>, bs: pos, k: nat)
    requires Image(data, rs) && Tiles(rs, |data|, bs) && k <= |rs|
    requires forall i :: 0 <= i < |rs| ==> rs[i].inum != 0
    ensures Parse(data, Start(rs, k)) == Some(rs[k..])
    decreases |rs| - k
  {
    hide Holds, Parse, Tiles, Start;
    if k == |rs| {
      TilesEnd(rs, |data|, bs);
      ParseEnd(data, Start(rs, k));
    } else {
      assert Holds(data, Start(rs, k), rs[k]);
      RoomOf(rs, |data|, bs, k);
      ParseOne(data, Start(rs, k), rs[k]);
      ParseReturns(data, rs, bs, k + 1);
      assert rs[k..] == [rs[k]] + rs[k + 1..];
    }
  }

  lemma ParseEnd(data: seq<byte>, at: nat)
    requires at >= |data|
    ensures Parse(data, at) == Some([])
  {
  }

  lemma NumberedTiles(rs: seq<Record>, inums: seq<nat>, offset: nat, bs: pos)
    requires |inums| + 2 <= |rs| && Tiles(rs, offset, bs)
    ensures Tiles(Numbered(rs, inums), offset, bs)
  {
    var ys := Numbered(rs, inums);
    StartSame(rs, ys, |rs|);
    forall k: nat | k < |rs|
      ensures RecordFits(ys, k, bs)
    {
      assert RecordFits(rs, k, bs);
      StartSame(rs, ys, k);
    }
  }

  /** Once all inode numbers are non-zero, reading the bytes of a new directory returns ".", ".." and the names in
      order with those numbers. */
  lemma DirectoryRoundTrip(self: nat, parent: nat, items: seq<Item>, inums: seq<nat>, bs: pos, data: seq<byte>)
    requires ValidBlock(bs) && Named(items) && |inums| == |items|
    requires self != 0 && parent != 0 && forall j :: 0 <= j < |inums| ==> inums[j] != 0
    requires |data| == DirBytes(items, bs) && Image(data, Numbered(Finished(self, parent, items, bs), inums))
    ensures Parse(data, 0).Some? && |Parse(data, 0).value| == |items| + 2
    ensures forall k :: 0 <= k < |items| + 2 ==>
      var r := Parse(data, 0).value[k];
      (r.inum, r.name, r.ftype) == if k == 0 then (self, [46], 2) else if k == 1 then (parent, [46, 46], 2)
                                   else (inums[k - 2], items[k - 2].name, items[k - 2].ftype)
  {
    hide Image, Tiles, Parse, PackedDir, Finished, DirBytes;
    var rs := Finished(self, parent, items, bs);
    var ys := Numbered(rs, inums);
    FinishedTiles(self, parent, items, bs);
    NumberedTiles(rs, inums, |data|, bs);
    forall k | 0 <= k < |ys|
      ensures (ys[k].inum, ys[k].name, ys[k].ftype) ==
        if k == 0 then (self, [DOT], FT_DIR) else if k == 1 then (parent, [DOT, DOT], FT_DIR)
        else (inums[k - 2], items[k - 2].name, items[k - 2].ftype)
    {
      FinishedNames(self, parent, items, bs, k);
    }
    ParseReturns(data, ys, bs, 0);
    assert Start(ys, 0) == 0 && ys[0..] == ys;
  }

  /** No record of a new directory starts within 8 bytes of the end, so the passes that mend a directory with
      that little space left over behind its last record leave a new one alone. */
  lemma NoLeftover(self: nat, parent: nat, items: seq<Item>, bs: pos, k: nat)
    requires Named(items) && ValidBlock(bs) && k < |items| + 2
    ensures Start(Finished(self, parent, items, bs), k) + 8 < DirBytes(items, bs)
  {
    hide Finished, RecordFits, DirBytes;
    var rs := Finished(self, parent, items, bs);
    FinishedTiles(self, parent, items, bs);
    FinishedNames(self, parent, items, bs, k);
    StartMonotone(rs, k + 1, |rs|);
  }

  // ----- the directory as the renumbering passes see it

  function TypeOf(ftype: nat): F.FileType {
    if ftype == 0 then F.FtUnknown else if ftype == FT_DIR then F.FtDir else F.FtOther
  }

  function Text(name: seq<byte>): string {
    seq(|name|, k requires 0 <= k < |name| => CharOf(name[k]))
  }

  function CharOf(b: nat): char
    requires b < 256
  {
    b as char
  }

  function ToDir(rs: seq<Record>, size: nat, bs: pos): F.Dir {
    F.Dir(seq(|rs|, k requires 0 <= k < |rs| =>
                F.Entry(rs[k].inum, rs[k].recLen, Text(rs[k].name), TypeOf(rs[k].ftype), Start(rs, k) / bs)),
          size / bs, size)
  }

  lemma {:induction false} ByteAtIsStart(rs: seq<Record>, size: nat, bs: pos, k: nat)
    requires k <= |rs|
    ensures P.ByteAt(ToDir(rs, size, bs).entries, k) == Start(rs, k)
  {
    if k > 0 { ByteAtIsStart(rs, size, bs, k - 1); }
  }

  /** A new directory, once numbered, is one the renumbering passes handle: every record is live, lies in one of the
      directory's blocks and is long enough, and nothing is left uncovered behind the last one. */
  lemma NewDirectoryIsValid(self: nat, parent: nat, items: seq<Item>, inums: seq<nat>, bs: pos)
    requires ValidBlock(bs) && Named(items) && |inums| == |items|
    requires self != 0 && parent != 0 && forall j :: 0 <= j < |inums| ==> inums[j] != 0
    ensures var dir := ToDir(Numbered(Finished(self, parent, items, bs), inums), DirBytes(items, bs), bs);
      P.ValidDir(dir) && P.LiveCount(dir.entries) == |items| + 2 && P.Tail(dir) == 0
  {
    hide PackedDir, Finished, DirBytes, Tiles, Start, P.ByteAt;
    var rs := Finished(self, parent, items, bs);
    var size := DirBytes(items, bs);
    var ys := Numbered(rs, inums);
    var dir := ToDir(ys, size, bs);
    FinishedTiles(self, parent, items, bs);
    NumberedTiles(rs, inums, size, bs);
    TilesEnd(ys, size, bs);
    ByteAtIsStart(ys, size, bs, |ys|);
    forall k: nat | k < |ys|
      ensures ys[k].inum != 0 && ys[k].recLen > 8 && Start(ys, k) / bs < size / bs
    {
      FinishedNames(self, parent, items, bs, k);
      StartInBlocks(self, parent, items, inums, bs, k);
    }
    P.AllLive(dir.entries, 0);
  }

  lemma DotNames(name: seq<byte>)
    ensures F.IsDots(Text(name)) <==> name == [46] || name == [46, 46]
  {
    if F.IsDots(Text(name)) {
      assert |Text(name)| == |name| && forall k :: 0 <= k < |name| ==> CharOf(name[k]) == Text(name)[k];
    }
  }

  /** The marking pass enters exactly the records stored with type 2, or with type 0 and the number of a directory;
      the directory's own record and its parent's are not entered. */
  lemma EntersExactly(self: nat, parent: nat, items: seq<Item>, inums: seq<nat>, bs: pos, dirs: set<F.Slot>,
          g: F.Geometry, k: nat)
    requires ValidBlock(bs) && Named(items) && |inums| == |items| && k < |items| + 2
    requires forall i :: 0 <= i < |items| ==> items[i].name != [46] && items[i].name != [46, 46]
    ensures var dir := ToDir(Numbered(Finished(self, parent, items, bs), inums), DirBytes(items, bs), bs);
      F.Descends(dirs, dir.entries[k], F.MarkNums, g) <==>
        k >= 2 && (items[k - 2].ftype == 2
                   || (items[k - 2].ftype == 0 && F.SlotOf(F.Unmark(inums[k - 2]), g.ipg) in dirs))
  {
    hide Finished, DirBytes, F.SlotOf, F.Unmark, F.IsDots, Text;
    FinishedNames(self, parent, items, bs, k);
    DotNames(Finished(self, parent, items, bs)[k].name);
  }

  lemma StartInBlocks(self: nat, parent: nat, items: seq<Item>, inums: seq<nat>, bs: pos, k: nat)
    requires ValidBlock(bs) && Named(items) && |inums| == |items| && k < |items| + 2
    ensures var ys := Numbered(Finished(self, parent, items, bs), inums); Start(ys, k) / bs < DirBytes(items, bs) / bs
  {
    hide PackedDir, Finished, Tiles, Start, DentrySize, DivRoundUp;
    var size := DirBytes(items, bs);
    var ys := Numbered(Finished(self, parent, items, bs), inums);
    FinishedTiles(self, parent, items, bs);
    NumberedTiles(Finished(self, parent, items, bs), inums, size, bs);
    RoomOf(ys, size, bs, k);
    StartMonotone(ys, k + 1, |ys|);
    TilesEnd(ys, size, bs);
    DivModUnique(bs, DivRoundUp(DentrySize(items, bs), bs), 0);
    BelowMultiple(Start(ys, k), DivRoundUp(DentrySize(items, bs), bs), bs);
  }

  lemma BelowMultiple(x: nat, q: nat, bs: pos)
    requires x < q * bs
    ensures x / bs < q
  {
    DivModParts(x, bs);
    if x / bs >= q {
      MulMonotone(q, x / bs, bs);
      assert false;
    }
  }
}
