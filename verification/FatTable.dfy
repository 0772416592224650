/** Reading the files of the synthetic volume as a FAT driver does: through the table in the volume's own bytes. */
module FatTable {
  import opened Arith
  import opened Bytes
  import opened FatVolume
  import R = FatRead

  /** The table in memory: 4 bytes for each entry. */
  function TableBytes(fat: seq<nat>): (b: seq<byte>)
    ensures |b| == 4 * |fat|
  {
    if fat == [] then [] else TableBytes(fat[..|fat| - 1]) + LE4(fat[|fat| - 1])
  }

  lemma {:induction false} TableBytesAt(fat: seq<nat>, c: nat, i: nat)
    requires c < |fat| && i < 4
    ensures TableBytes(fat)[4 * c + i] == LE4(fat[c])[i]
  {
    if c < |fat| - 1 { TableBytesAt(fat[..|fat| - 1], c, i); }
  }

  function FourAt(s: Shape, allocs: seq<Alloc>, sources: Kind -> R.Source, at: nat): seq<byte>
    requires StartAtTwo(allocs)
  {
    [ByteAt(s, allocs, sources, at), ByteAt(s, allocs, sources, at + 1),
     ByteAt(s, allocs, sources, at + 2), ByteAt(s, allocs, sources, at + 3)]
  }

  /** Entry c of the table as the bytes of the volume have it. */
  function VolumeEntry(s: Shape, allocs: seq<Alloc>, sources: Kind -> R.Source, c: nat): nat
    requires StartAtTwo(allocs)
  {
    U32At(FourAt(s, allocs, sources, 1536 + 4 * c), 0)
  }

  /** The clusters reached from c, as a reader of FAT32 finds them, by following the table in the bytes of the
      volume. */
  function FollowVolume(s: Shape, allocs: seq<Alloc>, sources: Kind -> R.Source, c: nat, n: nat): Option<seq<nat>>
    requires StartAtTwo(allocs)
    decreases n
  {
    if n == 0 || c < 2 || c >= s.fatSectors * 128 then None
    else
      var entry := VolumeEntry(s, allocs, sources, c);
      if entry >= 0x0FFF_FFF8 then Some([c])
      else
        match FollowVolume(s, allocs, sources, entry, n - 1)
        case None => None
        case Some(rest) => Some([c] + rest)
  }

  /** The volume serves this table. */
  ghost predicate Serves(s: Shape, sources: Kind -> R.Source, fat: seq<nat>) {
    && |fat| == s.fatSectors * 128 && sources(Kind.FatTable) == R.Memory(TableBytes(fat))
    && forall c :: 0 <= c < |fat| ==> fat[c] <= EOC
  }

  lemma ByteOfTable(s: Shape, allocs: seq<Alloc>, sources: Kind -> R.Source, fat: seq<nat>, x: nat)
    requires s.Valid() && Consecutive(allocs) && StartAtTwo(allocs) && Serves(s, sources, fat) && x < 4 * |fat|
    ensures ByteAt(s, allocs, sources, RESERVED * SECTOR + x) == TableBytes(fat)[x]
  {
    hide ExtentsOf, Consecutive, ByteAt, TableBytes;
    FixedExtents(s, allocs);
    VolumeByte(s, allocs, sources, |allocs|, x);
  }

  lemma VolumeEntryIs(s: Shape, allocs: seq<Alloc>, sources: Kind -> R.Source, fat: seq<nat>, c: nat)
    requires s.Valid() && Consecutive(allocs) && StartAtTwo(allocs) && Serves(s, sources, fat) && c < |fat|
    ensures VolumeEntry(s, allocs, sources, c) == fat[c]
  {
    hide Consecutive, ByteAt, TableBytes, LE4, U32At, Serves;
    var at := RESERVED * SECTOR + 4 * c;
    var b := FourAt(s, allocs, sources, at);
    forall i | 0 <= i < 4
      ensures b[i] == LE4(fat[c])[i]
    {
      TableSize(s, sources, fat);
      ByteOfTable(s, allocs, sources, fat, 4 * c + i);
      TableBytesAt(fat, c, i);
    }
    assert b == LE4(fat[c]);
    SmallEntry(s, sources, fat, c);
    Write32(b, 0, fat[c]);
    assert Put(b, 0, LE4(fat[c])) == b;
  }

  lemma TableSize(s: Shape, sources: Kind -> R.Source, fat: seq<nat>)
    requires Serves(s, sources, fat)
    ensures |fat| == s.fatSectors * 128
  {
  }

  lemma SmallEntry(s: Shape, sources: Kind -> R.Source, fat: seq<nat>, c: nat)
    requires Serves(s, sources, fat) && c < |fat|
    ensures fat[c] < 0x1_0000_0000
  {
  }

  /** Following the table in the volume is following the table in memory. */
  lemma {:induction false} FollowVolumeIs(s: Shape, allocs: seq<Alloc>, sources: Kind -> R.Source,
      fat: seq<nat>, c: nat, n: nat)
    requires s.Valid() && Consecutive(allocs) && StartAtTwo(allocs) && Serves(s, sources, fat)
    ensures FollowVolume(s, allocs, sources, c, n) == Follow(fat, c, n)
    decreases n
  {
    hide Consecutive, VolumeEntry, Serves;
    TableSize(s, sources, fat);
    if n > 0 && ZERO <= c < |fat| {
      VolumeEntryIs(s, allocs, sources, fat, c);
      if fat[c] < EOC { FollowVolumeIs(s, allocs, sources, fat, fat[c], n - 1); }
    }
  }

  /** A reader that knows nothing but the bytes of the volume and the first cluster of a file finds the file: byte j
      of the i-th cluster it reaches is byte i * clusterSize + j of the file. */
  lemma FileThroughChain(s: Shape, allocs: seq<Alloc>, fat: seq<nat>, sources: Kind -> R.Source, k: nat, i: nat, j: nat)
    requires s.Valid() && Consecutive(allocs) && StartAtTwo(allocs) && EndOf(allocs) <= ZERO + s.clusters
    requires Serves(s, sources, fat)
    requires k < |allocs| && IsChain(fat, allocs[k]) && i < allocs[k].count && j < s.clusterSize
    ensures var chain := FollowVolume(s, allocs, sources, allocs[k].first, s.fatSectors * 128);
      && chain.Some? && |chain.value| == allocs[k].count && chain.value[i] >= ZERO
      && i * s.clusterSize + j >= 0
      && ByteAt(s, allocs, sources, ClusterStart(s, chain.value[i]) + j)
         == R.ByteOf(sources(Host(allocs[k].id)), i * s.clusterSize + j)
  {
    hide Consecutive, EndOf, ByteAt, R.ByteOf, Follow, FollowVolume, IsChain, Shape.Valid, ClusterStart, Serves;
    TableSize(s, sources, fat);
    FollowVolumeIs(s, allocs, sources, fat, allocs[k].first, |fat|);
    FileAlongChain(s, allocs, fat, sources, k, i, j);
  }

  /** The table of a volume built by the allocations meets what a reader assumes. */
  lemma VolumeServes(v: Volume, sources: Kind -> R.Source)
    requires v.Valid() && sources(Kind.FatTable) == R.Memory(TableBytes(v.fat[..]))
    ensures Serves(v.shape, sources, v.fat[..])
    ensures forall k :: 0 <= k < |v.allocs| ==> IsChain(v.fat[..], v.allocs[k])
  {
  }
}
