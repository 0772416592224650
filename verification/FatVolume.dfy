/** The synthetic FAT32 volume: its geometry, its cluster chains and the extents laid out in it. */
module FatVolume {
  import opened Arith
  import opened Bytes
  import R = FatRead

  const SECTOR: nat := 512
  const RESERVED: nat := 3
  const ZERO: nat := 2
  const EOC: nat := 0x0FFF_FFF8
  const MAX_CLUSTERS: nat := 0x0FFF_FFF7

  /** What an extent holds; a host file or directory has a number. */
  datatype Kind = BootSector | InfoSector | FatTable | Host(id: nat)

  /** What an allocation comes to: no room, the first cluster, or a loop that leaves the table. */
  datatype Given = Full | At(first: nat) | Overrun

  datatype Placed = Placed(start: nat, len: nat, kind: Kind)

  /** The clusters given to one file or directory. */
  datatype Alloc = Alloc(first: nat, count: nat, id: nat)

  /** The fixed numbers of a volume. */
  datatype Shape = Shape(clusterSize: pos, clusters: nat, fatSectors: nat)
  {
    function DataOffset(): nat { (RESERVED + fatSectors) * SECTOR }
    function FatSize(): nat { fatSectors * SECTOR }
    function TotalSize(): nat { (RESERVED + fatSectors + clusters * (clusterSize / SECTOR)) * SECTOR }
    predicate Valid() {
      && clusterSize % SECTOR == 0 && clusterSize < 0x1_0000
      && ZERO + clusters <= MAX_CLUSTERS
      && ZERO + clusters <= fatSectors * 128 < ZERO + clusters + 128
    }
  }

  /** The cluster behind the last one given out. */
  function EndOf(allocs: seq<Alloc>): nat {
    if allocs == [] then ZERO else allocs[|allocs| - 1].first + allocs[|allocs| - 1].count
  }

  /** Each allocation follows the one before, from cluster 2 on, and is not empty. */
  ghost predicate Consecutive(allocs: seq<Alloc>) {
    forall k :: 0 <= k < |allocs| ==> allocs[k].first == EndOf(allocs[..k]) && allocs[k].count > 0
  }

  function PlaceOf(s: Shape, a: Alloc): Placed
    requires a.first >= ZERO
  {
    Placed(s.DataOffset() + (a.first - ZERO) * s.clusterSize, a.count * s.clusterSize, Host(a.id))
  }

  /** The list of extents: the newest allocation first, the fixed ones last. */
  function ExtentsOf(s: Shape, allocs: seq<Alloc>): seq<Placed>
    requires StartAtTwo(allocs)
  {
    if allocs == [] then
      [Placed(RESERVED * SECTOR, s.FatSize(), FatTable), Placed(2 * SECTOR, SECTOR, BootSector),
       Placed(SECTOR, SECTOR, InfoSector), Placed(0, SECTOR, BootSector)]
    else [PlaceOf(s, allocs[|allocs| - 1])] + ExtentsOf(s, allocs[..|allocs| - 1])
  }

  /** The table leads through all the clusters of an allocation in order and ends there. */
  ghost predicate IsChain(fat: seq<nat>, a: Alloc) {
    && a.count > 0 && a.first + a.count <= |fat|
    && (forall c :: a.first <= c < a.first + a.count - 1 ==> fat[c] == c + 1)
    && fat[a.first + a.count - 1] == EOC
  }

  /** Every allocation has its chain, and the entries from `next` on are free. */
  ghost predicate Chained(fat: seq<nat>, allocs: seq<Alloc>, next: nat) {
    && (forall k :: 0 <= k < |allocs| ==> IsChain(fat, allocs[k]))
    && (forall c :: next <= c < |fat| ==> fat[c] == 0)
    && (forall c :: 0 <= c < |fat| ==> fat[c] <= EOC)
  }

  /** The clusters reached from c; None when the table leads outside itself or nowhere within n steps. */
  function Follow(fat: seq<nat>, c: nat, n: nat): Option<seq<nat>>
    decreases n
  {
    if n == 0 || c < ZERO || c >= |fat| then None
    else if fat[c] >= EOC then Some([c])
    else
      match Follow(fat, fat[c], n - 1)
      case None => None
      case Some(rest) => Some([c] + rest)
  }

  // ----- the volume

  class Volume {
    const shape: Shape
    const fat: array<nat>
    var nextCluster: nat
    var extents: seq<Placed>
    ghost var allocs: seq<Alloc>

    ghost predicate Valid()
      reads this, fat
    {
      && shape.Valid() && fat.Length == shape.fatSectors * 128
      && Consecutive(allocs) && EndOf(allocs) == nextCluster <= ZERO + shape.clusters
      && StartAtTwo(allocs) && extents == ExtentsOf(shape, allocs)
      && Chained(fat[..], allocs, nextCluster)
    }

    /** An empty volume for dataSize bytes in clusters of the given size. */
    constructor (clusterSize: pos, dataSize: nat)
      requires clusterSize % SECTOR == 0 && clusterSize < 0x1_0000
      requires ZERO + DivRoundUp(dataSize, clusterSize) <= MAX_CLUSTERS
      ensures Valid() && allocs == [] && fresh(fat)
      ensures shape.clusterSize == clusterSize && shape.clusters == DivRoundUp(dataSize, clusterSize)
      ensures shape.TotalSize() == shape.DataOffset() + shape.clusters * clusterSize >= dataSize
    {
      var dataClusters := U32(DivRoundUp(dataSize, clusterSize));
      var fatSectors := DivRoundUp(dataClusters + ZERO, SECTOR / 4);
      var s := Shape(clusterSize, dataClusters, fatSectors);
      TableIsLargeEnough(dataClusters + ZERO);
      TotalIs(s);
      DivRoundUpBounds(dataSize, clusterSize);
      shape := s;
      fat := new nat[fatSectors * 128](_ => 0);
      nextCluster := ZERO;
      extents := [Placed(RESERVED * SECTOR, fatSectors * SECTOR, FatTable), Placed(2 * SECTOR, SECTOR, BootSector),
                  Placed(SECTOR, SECTOR, InfoSector), Placed(0, SECTOR, BootSector)];
      allocs := [];
    }

    /** Give clusters for len bytes to a file or directory. An empty one gets none, and one that the 32-bit test finds
        too long is refused. What is given is the 32-bit count of clusters; when the loop over the table would leave
        it, with a count of 0 or nearly 2^32, this method stops instead. */
    method AllocExtent(id: nat, len: nat) returns (given: Given)
      requires Valid()
      modifies this`nextCluster, this`extents, this`allocs, fat
      ensures Valid()
      ensures len == 0 ==> given == At(0)
      ensures len > 0 ==>
        var next, needed, clusters := old(nextCluster), DivRoundUp(len, shape.clusterSize), ZERO + shape.clusters;
        && (given == Full <==> next + needed > clusters && !Wraps(next, needed, clusters))
        && (given == Overrun <==> Wraps(next, needed, next))
        && (given.At? ==> given == At(next) && allocs == old(allocs) + [Alloc(next, U32(needed), id)])
        && (given.At? && !Wraps(next, needed, clusters) ==> U32(needed) == needed)
      ensures len == 0 || !given.At? ==> allocs == old(allocs) && fat[..] == old(fat[..])
    {
      if len == 0 { return At(0); }
      hide ExtentsOf, Consecutive, EndOf, StartAtTwo, Chained, DivRoundUp, PlaceOf, U32, Shape.Valid, Linked, Wraps;
      SpaceFor(shape, len, nextCluster);
      var needed := U32(DivRoundUp(len, shape.clusterSize));
      if U32(nextCluster + needed) > ZERO + shape.clusters { return Full; }
      if needed == 0 || nextCluster + needed > fat.Length { return Overrun; }
      given := At(nextCluster);
      TakeClusters(id, needed);
    }

    /** Link the next clusters to a chain and add their extent in front of the list. */
    method TakeClusters(id: nat, needed: nat)
      requires Valid() && needed > 0 && nextCluster + needed <= ZERO + shape.clusters
      modifies this`nextCluster, this`extents, this`allocs, fat
      ensures Valid()
      ensures allocs == old(allocs) + [Alloc(old(nextCluster), needed, id)]
    {
      hide ExtentsOf, Consecutive, EndOf, StartAtTwo, Chained, PlaceOf, Linked;
      var a := Alloc(nextCluster, needed, id);
      AfterFirst(allocs);
      Grow(shape, allocs, a);
      ChainsAfter(fat[..], allocs, a);
      LinkChain(nextCluster, needed);
      nextCluster := nextCluster + needed;
      extents := [PlaceOf(shape, a)] + extents;
      allocs := allocs + [a];
    }

    /** Link clusters start, start + 1, ... to a chain of the given length. */
    method LinkChain(start: nat, count: nat)
      requires count > 0 && start + count <= fat.Length
      modifies fat
      ensures fat[..] == Linked(old(fat[..]), start, count)
    {
      var i := 0;
      while i < count - 1
        modifies fat
        invariant 0 <= i <= count - 1
        invariant forall c :: 0 <= c < fat.Length ==> fat[c] == if start <= c < start + i then c + 1 else old(fat[c])
      {
        fat[start + i] := start + i + 1;
        i := i + 1;
      }
      fat[start + count - 1] := EOC;
      assert forall c :: 0 <= c < fat.Length ==> fat[..][c] == Linked(old(fat[..]), start, count)[c];
    }
  }

  /** The table with clusters start, start + 1, ... linked to a chain. */
  function Linked(x: seq<nat>, start: nat, count: nat): (y: seq<nat>)
    requires count > 0
    ensures |y| == |x|
  {
    seq(|x|, c requires 0 <= c < |x| =>
      if start <= c < start + count - 1 then c + 1 else if c == start + count - 1 then EOC else x[c])
  }

  lemma AfterFirst(allocs: seq<Alloc>)
    requires Consecutive(allocs)
    ensures EndOf(allocs) >= ZERO
  {
    FirstEnds(allocs, |allocs|);
    assert allocs[..|allocs|] == allocs;
  }

  /** Linking a new chain behind the others keeps theirs. */
  lemma ChainsAfter(x: seq<nat>, allocs: seq<Alloc>, a: Alloc)
    requires Consecutive(allocs) && Chained(x, allocs, a.first) && a.first == EndOf(allocs)
    requires a.count > 0 && a.first + a.count <= |x| && a.first + a.count <= MAX_CLUSTERS
    ensures Chained(Linked(x, a.first, a.count), allocs + [a], a.first + a.count)
  {
    hide Consecutive, EndOf;
    var y := Linked(x, a.first, a.count);
    forall k | 0 <= k < |allocs|
      ensures IsChain(y, allocs[k])
    {
      BelowEnd(allocs, k);
      ChainFrame(x, y, allocs[k]);
    }
  }

  predicate StartAtTwo(allocs: seq<Alloc>) {
    forall k :: 0 <= k < |allocs| ==> allocs[k].first >= ZERO
  }

  lemma NeededBounds(len: nat, cs: pos)
    requires 0 < len < 0x1_0000_0000 && cs >= SECTOR
    ensures 0 < DivRoundUp(len, cs) < 0x80_0001
  {
    DivRoundUpBounds(len, cs);
    var q := DivRoundUp(len, cs);
    if q >= 0x80_0001 { MulMonotone(SECTOR, cs, q); }
  }

  /** The true sum of the clusters needed and those before them, taken modulo 2^32, falls into the volume. */
  ghost predicate Wraps(next: nat, needed: nat, clusters: nat) {
    exists q: nat :: q >= 1 && q * 0x1_0000_0000 <= next + needed <= q * 0x1_0000_0000 + clusters
  }

  lemma SumOfParts(x: nat, y: nat)
    ensures U32(x + U32(y)) == U32(x + y)
  {
  }

  lemma LowPart(n: nat, q: nat, r: nat)
    requires n == q * 0x1_0000_0000 + r && r < 0x1_0000_0000
    ensures U32(n) == r
  {
  }

  /** The test, whose count and sum are 32-bit numbers, lets a file pass for which there is no room exactly when the
      sum wraps into the volume. It never refuses a file for which there is room. */
  lemma SpaceTestExactly(next: nat, needed: nat, clusters: nat)
    requires next <= clusters < 0x1_0000_0000
    ensures next + needed > clusters && U32(next + U32(needed)) <= clusters <==> Wraps(next, needed, clusters)
    ensures next + needed <= clusters ==> U32(next + U32(needed)) <= clusters
  {
    var n := next + needed;
    SumOfParts(next, needed);
    if n > clusters && U32(n) <= clusters {
      var q: nat := n / 0x1_0000_0000;
      DivModParts(n, 0x1_0000_0000);
      assert q >= 1 && q * 0x1_0000_0000 <= n <= q * 0x1_0000_0000 + clusters;
    }
    if Wraps(next, needed, clusters) {
      var q: nat :| q >= 1 && q * 0x1_0000_0000 <= n <= q * 0x1_0000_0000 + clusters;
      LowPart(n, q, n - q * 0x1_0000_0000);
    }
  }

  /** What a file that passes the test gets: the clusters it needs, too few of them when the sum wraps to behind the
      clusters given so far, and otherwise a count that leads off the table - none, or nearly 2^32. */
  lemma GivenExactly(next: nat, needed: nat, clusters: nat)
    requires next <= clusters < 0x1_0000_0000 && needed > 0 && U32(next + U32(needed)) <= clusters
    ensures U32(needed) == 0 || next + U32(needed) > clusters <==> Wraps(next, needed, next)
    ensures next + U32(needed) > clusters ==> next + U32(needed) >= 0x1_0000_0000
    ensures U32(needed) < needed || Wraps(next, needed, next) <==> Wraps(next, needed, clusters)
  {
    var n := next + needed;
    var q: nat, r: nat := n / 0x1_0000_0000, n % 0x1_0000_0000;
    DivModParts(n, 0x1_0000_0000);
    SumOfParts(next, needed);
    forall t: nat | t <= clusters
      ensures Wraps(next, needed, t) <==> q >= 1 && r <= t
    {
      WrapsAt(next, needed, t, q, r);
    }
    if q >= 1 { CountOf(next, needed, q, r); }
  }

  lemma WrapsAt(next: nat, needed: nat, t: nat, q: nat, r: nat)
    requires t < 0x1_0000_0000 && next + needed == q * 0x1_0000_0000 + r && r < 0x1_0000_0000
    ensures Wraps(next, needed, t) <==> q >= 1 && r <= t
  {
    if q >= 1 && r <= t { assert q * 0x1_0000_0000 <= next + needed <= q * 0x1_0000_0000 + t; }
  }

  lemma CountOf(next: nat, needed: nat, q: nat, r: nat)
    requires next < 0x1_0000_0000 && q >= 1 && next + needed == q * 0x1_0000_0000 + r && r < 0x1_0000_0000
    ensures U32(needed) == if r >= next then r - next else 0x1_0000_0000 + r - next
    ensures r >= next ==> U32(needed) < needed
  {
    if r >= next { LowPart(needed, q, r - next); } else { LowPart(needed, q - 1, 0x1_0000_0000 + r - next); }
  }

  /** Sizes below 2^32, as files and directories have them, pass the test exactly when there is room. */
  lemma SmallSizesCount(s: Shape, len: nat, next: nat)
    requires s.Valid() && 0 < len < 0x1_0000_0000 && next <= ZERO + s.clusters
    ensures !Wraps(next, DivRoundUp(len, s.clusterSize), ZERO + s.clusters)
  {
    NeededBounds(len, s.clusterSize);
  }

  /** A size of 2^32 clusters passes the test on a volume of any size, and leads off the table. */
  lemma HugeSizePasses(next: nat, clusters: nat, clusterSize: pos)
    requires next <= clusters < 0x1_0000_0000
    ensures var needed := DivRoundUp(0x1_0000_0000 * clusterSize, clusterSize);
      U32(next + U32(needed)) <= clusters < next + needed && Wraps(next, needed, next)
  {
    var k: nat := clusterSize - 1;
    DivModUnique(clusterSize, 0x1_0000_0000, k);
    assert 0x1_0000_0000 * clusterSize + clusterSize - 1 == 0x1_0000_0000 * clusterSize + k;
    WrapsAt(next, 0x1_0000_0000, next, 1, next);
  }

  /** One cluster more than that: the file passes, and gets one cluster. */
  lemma LongFileGetsOne(next: nat, clusters: nat)
    requires next < clusters < 0x1_0000_0000
    ensures U32(next + U32(0x1_0000_0001)) <= clusters && U32(0x1_0000_0001) == 1
    ensures Wraps(next, 0x1_0000_0001, clusters) && !Wraps(next, 0x1_0000_0001, next)
  {
    WrapsAt(next, 0x1_0000_0001, clusters, 1, next + 1);
    WrapsAt(next, 0x1_0000_0001, next, 1, next + 1);
  }

  /** What the test finds for a volume, and that its clusters have entries in its table. */
  lemma SpaceFor(s: Shape, len: nat, next: nat)
    requires s.Valid() && len > 0 && next <= ZERO + s.clusters
    ensures var needed, clusters := DivRoundUp(len, s.clusterSize), ZERO + s.clusters;
      && (U32(next + U32(needed)) > clusters <==> next + needed > clusters && !Wraps(next, needed, clusters))
      && (U32(next + U32(needed)) <= clusters ==>
            && (U32(needed) == 0 || next + U32(needed) > s.fatSectors * 128 <==> Wraps(next, needed, next))
            && (!Wraps(next, needed, next) ==> next + U32(needed) <= clusters)
            && (U32(needed) == needed || Wraps(next, needed, clusters)))
      && (Wraps(next, needed, next) ==> U32(next + U32(needed)) <= clusters)
    ensures ZERO + s.clusters <= s.fatSectors * 128
  {
    hide DivRoundUp, Wraps, U32;
    DivRoundUpBounds(len, s.clusterSize);
    var needed, clusters := DivRoundUp(len, s.clusterSize), ZERO + s.clusters;
    SomeNeeded(len, s.clusterSize);
    SpaceTestExactly(next, needed, clusters);
    if Wraps(next, needed, next) { NarrowWraps(next, needed, clusters); }
    if U32(next + U32(needed)) <= clusters {
      GivenExactly(next, needed, clusters);
      UnlessLess(needed);
    }
  }

  lemma SomeNeeded(len: nat, cs: pos)
    requires len > 0
    ensures DivRoundUp(len, cs) > 0
  {
    DivModUnique(cs, 1, 0);
    DivMonotone(cs, len + cs - 1, cs);
  }

  lemma UnlessLess(n: nat)
    ensures U32(n) <= n
  {
  }

  lemma NarrowWraps(next: nat, needed: nat, clusters: nat)
    requires next <= clusters && Wraps(next, needed, next)
    ensures Wraps(next, needed, clusters)
  {
    var q: nat :| q >= 1 && q * 0x1_0000_0000 <= next + needed <= q * 0x1_0000_0000 + next;
    assert q * 0x1_0000_0000 <= next + needed <= q * 0x1_0000_0000 + clusters;
  }

  lemma TableIsLargeEnough(n: nat)
    ensures n <= DivRoundUp(n, SECTOR / 4) * 128 < n + 128
  {
    DivRoundUpBounds(n, 128);
  }

  lemma TotalIs(s: Shape)
    requires s.clusterSize % SECTOR == 0
    ensures s.TotalSize() == s.DataOffset() + s.clusters * s.clusterSize
  {
    DivModParts(s.clusterSize, SECTOR);
    assert s.clusters * (s.clusterSize / SECTOR) * SECTOR == s.clusters * (s.clusterSize / SECTOR * SECTOR);
  }

  lemma Grow(s: Shape, allocs: seq<Alloc>, a: Alloc)
    requires Consecutive(allocs) && StartAtTwo(allocs) && a.first == EndOf(allocs) && a.count > 0 && a.first >= ZERO
    ensures Consecutive(allocs + [a]) && StartAtTwo(allocs + [a]) && EndOf(allocs + [a]) == a.first + a.count
    ensures ExtentsOf(s, allocs + [a]) == [PlaceOf(s, a)] + ExtentsOf(s, allocs)
  {
    var ys := allocs + [a];
    assert ys[..|allocs|] == allocs;
    forall k | 0 <= k < |ys|
      ensures ys[k].first == EndOf(ys[..k]) && ys[k].count > 0
    {
      if k < |allocs| { assert ys[..k] == allocs[..k]; }
    }
  }

  lemma {:induction false} EndGrows(allocs: seq<Alloc>, k: nat)
    requires Consecutive(allocs) && k <= |allocs|
    ensures ZERO <= EndOf(allocs[..k]) <= EndOf(allocs)
    decreases |allocs| - k
  {
    assert allocs[..|allocs|] == allocs;
    if k == |allocs| {
      FirstEnds(allocs, k);
    } else {
      EndGrows(allocs, k + 1);
      FirstEnds(allocs, k);
      assert allocs[..k + 1][k] == allocs[k];
    }
  }

  lemma {:induction false} FirstEnds(allocs: seq<Alloc>, k: nat)
    requires Consecutive(allocs) && k <= |allocs|
    ensures EndOf(allocs[..k]) >= ZERO
  {
    if k > 0 {
      FirstEnds(allocs, k - 1);
      assert allocs[..k][k - 1] == allocs[k - 1];
    }
  }

  lemma BelowEnd(allocs: seq<Alloc>, k: nat)
    requires Consecutive(allocs) && k < |allocs|
    ensures ZERO <= allocs[k].first && allocs[k].first + allocs[k].count <= EndOf(allocs)
  {
    EndGrows(allocs, k + 1);
    EndGrows(allocs, k);
    assert allocs[..k + 1][k] == allocs[k];
  }

  lemma ChainFrame(x: seq<nat>, y: seq<nat>, a: Alloc)
    requires IsChain(x, a) && |y| == |x| && forall c :: a.first <= c < a.first + a.count ==> y[c] == x[c]
    ensures IsChain(y, a)
  {
  }

  // ----- what holds of every volume

  /** Following the table from the first cluster given out for a file visits exactly its clusters, in order. */
  lemma {:induction false} ChainFollows(fat: seq<nat>, a: Alloc, n: nat)
    requires IsChain(fat, a) && a.first >= ZERO && n >= a.count && a.first + a.count <= MAX_CLUSTERS
    ensures Follow(fat, a.first, n).Some?
    ensures Follow(fat, a.first, n).value == seq(a.count, i requires 0 <= i < a.count => a.first + i)
    decreases a.count
  {
    if a.count == 1 {
      assert Follow(fat, a.first, n) == Some([a.first]);
    } else {
      var rest := Alloc(a.first + 1, a.count - 1, a.id);
      assert fat[a.first] == a.first + 1;
      ChainFollows(fat, rest, n - 1);
      assert Follow(fat, a.first, n).value == [a.first] + Follow(fat, rest.first, n - 1).value;
    }
  }

  /** The clusters from 2 up to the next free one belong to exactly one allocation each. */
  lemma ClustersPartitioned(allocs: seq<Alloc>, c: nat)
    requires Consecutive(allocs)
    ensures ZERO <= c < EndOf(allocs) <==> exists k :: 0 <= k < |allocs| && Owns(allocs[k], c)
    ensures forall i, j :: 0 <= i < j < |allocs| && Owns(allocs[i], c) ==> !Owns(allocs[j], c)
  {
    if ZERO <= c < EndOf(allocs) { OwnerExists(allocs, |allocs|, c); }
    forall k | 0 <= k < |allocs| && Owns(allocs[k], c)
      ensures ZERO <= c < EndOf(allocs)
    {
      BelowEnd(allocs, k);
    }
    forall i, j | 0 <= i < j < |allocs| && Owns(allocs[i], c)
      ensures !Owns(allocs[j], c)
    {
      EarlierEnds(allocs, i, j);
    }
  }

  predicate Owns(a: Alloc, c: nat) {
    a.first <= c < a.first + a.count
  }

  lemma {:induction false} OwnerExists(allocs: seq<Alloc>, n: nat, c: nat)
    requires Consecutive(allocs) && n <= |allocs| && ZERO <= c < EndOf(allocs[..n])
    ensures exists k :: 0 <= k < n && Owns(allocs[k], c)
  {
    if n > 0 {
      assert allocs[..n][n - 1] == allocs[n - 1];
      if c < allocs[n - 1].first {
        OwnerExists(allocs, n - 1, c);
      } else {
        var k := n - 1;
        assert 0 <= k < n && Owns(allocs[k], c);
      }
    }
  }

  lemma EarlierEnds(allocs: seq<Alloc>, i: nat, j: nat)
    requires Consecutive(allocs) && i < j < |allocs|
    ensures allocs[i].first + allocs[i].count <= allocs[j].first
  {
    Front(allocs, j);
    BelowEnd(allocs[..j], i);
  }

  predicate Apart(x: Placed, y: Placed) {
    x.start + x.len <= y.start || y.start + y.len <= x.start
  }

  ghost predicate AllApart(es: seq<Placed>) {
    forall i, j :: 0 <= i < j < |es| ==> Apart(es[i], es[j])
  }

  ghost predicate AllBelow(es: seq<Placed>, limit: nat) {
    forall i :: 0 <= i < |es| ==> es[i].len > 0 && es[i].start + es[i].len <= limit
  }

  lemma Prepend(e: Placed, es: seq<Placed>, limit: nat)
    requires AllApart(es) && AllBelow(es, limit) && e.start == limit && e.len > 0
    ensures AllApart([e] + es) && AllBelow([e] + es, limit + e.len)
  {
    var ys := [e] + es;
    forall i, j | 0 <= i < j < |ys|
      ensures Apart(ys[i], ys[j])
    {
      assert ys[j] == es[j - 1];
      if i > 0 { assert ys[i] == es[i - 1]; }
    }
  }

  function Limit(s: Shape, allocs: seq<Alloc>): int {
    s.DataOffset() + (EndOf(allocs) - ZERO) * s.clusterSize
  }

  lemma LimitGrows(s: Shape, front: seq<Alloc>, a: Alloc)
    requires a.first == EndOf(front) >= ZERO && a.count > 0
    ensures Limit(s, front + [a]) == Limit(s, front) + a.count * s.clusterSize
    ensures PlaceOf(s, a).start == Limit(s, front) && a.count * s.clusterSize > 0
  {
    MulMonotone(1, a.count, s.clusterSize);
    assert (a.first + a.count - ZERO) * s.clusterSize == (a.first - ZERO) * s.clusterSize + a.count * s.clusterSize;
  }

  /** All extents lie below the place of the next cluster, are not empty and do not meet each other. */
  lemma {:induction false} ExtentsApart(s: Shape, allocs: seq<Alloc>)
    requires s.Valid() && Consecutive(allocs) && StartAtTwo(allocs)
    ensures Limit(s, allocs) >= 0
    ensures AllBelow(ExtentsOf(s, allocs), Limit(s, allocs)) && AllApart(ExtentsOf(s, allocs))
    decreases |allocs|
  {
    if allocs == [] {
      assert s.fatSectors >= 1;
    } else {
      hide AllApart, AllBelow, Limit, EndOf;
      var n := |allocs| - 1;
      var front, a := allocs[..n], allocs[n];
      Front(allocs, n);
      ExtentsApart(s, front);
      AfterFirst(front);
      LimitGrows(s, front, a);
      assert front + [a] == allocs;
      Prepend(PlaceOf(s, a), ExtentsOf(s, front), Limit(s, front));
    }
  }

  lemma Front(allocs: seq<Alloc>, n: nat)
    requires Consecutive(allocs) && n <= |allocs|
    ensures Consecutive(allocs[..n])
  {
    var front := allocs[..n];
    forall k | 0 <= k < n
      ensures front[k].first == EndOf(front[..k]) && front[k].count > 0
    {
      assert front[..k] == allocs[..k];
    }
  }

  /** Every extent of a volume lies inside it. */
  lemma ExtentsInside(s: Shape, allocs: seq<Alloc>, i: nat)
    requires s.Valid() && Consecutive(allocs) && StartAtTwo(allocs) && EndOf(allocs) <= ZERO + s.clusters
    requires i < |ExtentsOf(s, allocs)|
    ensures ExtentsOf(s, allocs)[i].start + ExtentsOf(s, allocs)[i].len <= s.TotalSize()
  {
    hide ExtentsOf, Consecutive, EndOf;
    ExtentsApart(s, allocs);
    AfterFirst(allocs);
    TotalIs(s);
    MulMonotone(EndOf(allocs) - ZERO, s.clusters, s.clusterSize);
  }

  // ----- reading the volume

  /** The extents with the bytes behind them. */
  function Resolve(es: seq<Placed>, sources: Kind -> R.Source): (r: seq<R.Extent>)
    ensures |r| == |es| && forall i :: 0 <= i < |es| ==> r[i] == R.Extent(es[i].start, es[i].len, sources(es[i].kind))
  {
    seq(|es|, i requires 0 <= i < |es| => R.Extent(es[i].start, es[i].len, sources(es[i].kind)))
  }

  /** The byte at x of the volume. */
  function ByteAt(s: Shape, allocs: seq<Alloc>, sources: Kind -> R.Source, x: nat): byte
    requires StartAtTwo(allocs)
  {
    var es := Resolve(ExtentsOf(s, allocs), sources);
    R.FlatByte(es, |es|, x)
  }

  /** Where a reader looks for cluster c: behind the reserved sectors and the table, the first cluster being
      number 2. */
  function ClusterStart(s: Shape, c: nat): nat
    requires c >= 2
  {
    (3 + s.fatSectors) * 512 + (c - 2) * s.clusterSize
  }

  /** The byte of the volume at place x of extent i is the byte at that place of what the extent holds. */
  lemma VolumeByte(s: Shape, allocs: seq<Alloc>, sources: Kind -> R.Source, i: nat, x: nat)
    requires s.Valid() && Consecutive(allocs) && StartAtTwo(allocs)
    requires i < |ExtentsOf(s, allocs)| && x < ExtentsOf(s, allocs)[i].len
    ensures var e := ExtentsOf(s, allocs)[i]; ByteAt(s, allocs, sources, e.start + x) == R.ByteOf(sources(e.kind), x)
  {
    hide ExtentsOf, Consecutive, R.FlatByte, R.ByteOf;
    ExtentsApart(s, allocs);
    var ps := ExtentsOf(s, allocs);
    var es := Resolve(ps, sources);
    forall j | 0 <= j < |es| && j != i
      ensures !R.Covers(es[j], ps[i].start + x)
    {
      assert if i < j then Apart(ps[i], ps[j]) else Apart(ps[j], ps[i]);
    }
    R.LastCoversIt(es, |es|, i, ps[i].start + x);
  }

  /** The place of allocation k in the list of extents. */
  lemma {:induction false} ExtentAt(s: Shape, allocs: seq<Alloc>, k: nat)
    requires StartAtTwo(allocs) && k < |allocs|
    ensures |ExtentsOf(s, allocs)| == |allocs| + 4
    ensures ExtentsOf(s, allocs)[|allocs| - 1 - k] == PlaceOf(s, allocs[k])
    decreases |allocs|
  {
    var n := |allocs| - 1;
    if k < n {
      ExtentAt(s, allocs[..n], k);
    } else {
      FixedExtents(s, allocs[..n]);
    }
  }

  lemma {:induction false} FixedExtents(s: Shape, allocs: seq<Alloc>)
    requires StartAtTwo(allocs)
    ensures |ExtentsOf(s, allocs)| == |allocs| + 4
    ensures ExtentsOf(s, allocs)[|allocs|] == Placed(RESERVED * SECTOR, s.FatSize(), FatTable)
    ensures ExtentsOf(s, allocs)[|allocs| + 1] == Placed(1024, 512, BootSector)
    ensures ExtentsOf(s, allocs)[|allocs| + 2] == Placed(512, 512, InfoSector)
    ensures ExtentsOf(s, allocs)[|allocs| + 3] == Placed(0, 512, BootSector)
    decreases |allocs|
  {
    if allocs != [] { FixedExtents(s, allocs[..|allocs| - 1]); }
  }

  /** Whatever was allocated, the volume begins with the boot sector, the info sector and the boot sector again,
      and the table follows. */
  lemma FirstSectors(s: Shape, allocs: seq<Alloc>, sources: Kind -> R.Source, x: nat)
    requires s.Valid() && Consecutive(allocs) && StartAtTwo(allocs)
    ensures x < 512 ==> ByteAt(s, allocs, sources, x) == R.ByteOf(sources(BootSector), x)
    ensures x < 512 ==> ByteAt(s, allocs, sources, 512 + x) == R.ByteOf(sources(InfoSector), x)
    ensures x < 512 ==> ByteAt(s, allocs, sources, 1024 + x) == R.ByteOf(sources(BootSector), x)
    ensures x < s.fatSectors * 512 ==>
      ByteAt(s, allocs, sources, 1536 + x) == R.ByteOf(sources(Kind.FatTable), x)
  {
    hide ExtentsOf, Consecutive, ByteAt, Shape.Valid, R.ByteOf;
    FixedExtents(s, allocs);
    if x < s.fatSectors * 512 { VolumeByte(s, allocs, sources, |allocs|, x); }
    if x < 512 {
      VolumeByte(s, allocs, sources, |allocs| + 1, x);
      VolumeByte(s, allocs, sources, |allocs| + 2, x);
      VolumeByte(s, allocs, sources, |allocs| + 3, x);
    }
  }

  /** Byte j of the i-th cluster of a file's chain is byte i * clusterSize + j of the file. */
  lemma FileAlongChain(s: Shape, allocs: seq<Alloc>, fat: seq<nat>, sources: Kind -> R.Source, k: nat, i: nat, j: nat)
    requires s.Valid() && Consecutive(allocs) && StartAtTwo(allocs) && EndOf(allocs) <= ZERO + s.clusters
    requires k < |allocs| && IsChain(fat, allocs[k]) && i < allocs[k].count && j < s.clusterSize
    ensures var chain := Follow(fat, allocs[k].first, |fat|);
      && chain.Some? && |chain.value| == allocs[k].count && chain.value[i] >= ZERO
      && i * s.clusterSize + j >= 0
      && ByteAt(s, allocs, sources, ClusterStart(s, chain.value[i]) + j)
         == R.ByteOf(sources(Host(allocs[k].id)), i * s.clusterSize + j)
  {
    var a := allocs[k];
    ChainOf(s, allocs, fat, k);
    hide ExtentsOf, Consecutive, EndOf, ByteAt, R.ByteOf, Follow, IsChain, PlaceOf, Shape.Valid, ClusterStart;
    ExtentAt(s, allocs, k);
    PlaceInside(s, a, i, j);
    VolumeByte(s, allocs, sources, |allocs| - 1 - k, i * s.clusterSize + j);
  }

  lemma ChainOf(s: Shape, allocs: seq<Alloc>, fat: seq<nat>, k: nat)
    requires s.Valid() && Consecutive(allocs) && EndOf(allocs) <= ZERO + s.clusters
    requires k < |allocs| && IsChain(fat, allocs[k])
    ensures allocs[k].first >= ZERO
    ensures var chain := Follow(fat, allocs[k].first, |fat|);
      chain.Some? && |chain.value| == allocs[k].count && forall i :: 0 <= i < allocs[k].count ==>
        chain.value[i] == allocs[k].first + i
  {
    hide Consecutive, EndOf;
    BelowEnd(allocs, k);
    ChainFollows(fat, allocs[k], |fat|);
  }

  /** The bytes of the i-th cluster of an allocation within its extent. */
  lemma PlaceInside(s: Shape, a: Alloc, i: nat, j: nat)
    requires a.first >= ZERO && i < a.count && j < s.clusterSize
    ensures PlaceOf(s, a).start + (i * s.clusterSize + j) == ClusterStart(s, a.first + i) + j
    ensures 0 <= i * s.clusterSize + j < PlaceOf(s, a).len && PlaceOf(s, a).kind == Host(a.id)
  {
    var cs: nat := s.clusterSize;
    MulMonotone(i + 1, a.count, cs);
    assert (i + 1) * cs == i * cs + cs;
    assert (a.first + i - ZERO) * cs == (a.first - ZERO) * cs + i * cs;
  }
}
