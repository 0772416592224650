/** Extent trees: the writer of the image builder and the reader of the renumbering tool. */
module Extents {
  import opened Arith
  import opened Allocator
  import opened Regions
  import opened RegionOps

  const MAGIC: nat := 0xf30a
  const RECORD_BYTES: nat := 12

  /** len consecutive blocks of a file, from its block number `block` on, stored from `start` on. */
  datatype Extent = Extent(block: nat, len: nat, start: nat)

  /** A node of the tree: in the inode or in a block of its own. */
  datatype Node =
    | Leaf(magic: nat, entries: nat, max: nat, extents: seq<Extent>)
    | Index(magic: nat, entries: nat, max: nat, depth: nat, leaves: seq<nat>)
  {
    function Depth(): nat {
      if Leaf? then 0 else depth
    }
  }

  /** What the writer leaves: nothing, a record written outside its block, or a root and the blocks of the tree. */
  datatype Outcome = Failed | Overrun | Written(root: Node, blocks: map<nat, Node>, alloc: Chain)

  // ----- the writer

  /** The records for a list of regions. */
  function Records(rs: seq<Region>, at: nat): (es: seq<Extent>)
    ensures |es| == |rs|
    ensures rs != [] ==> es[0] == Extent(at, U16(rs[0].len), rs[0].block)
  {
    if rs == [] then [] else [Extent(at, U16(rs[0].len), rs[0].block)] + Records(rs[1..], at + rs[0].len)
  }

  /** An area for `capacity` records, the first ones filled. */
  function Filled(es: seq<Extent>, capacity: nat): (area: seq<Extent>)
    requires |es| <= capacity
    ensures |area| == capacity
    ensures area[..|es|] == es
    ensures forall k :: |es| <= k < capacity ==> area[k].len == 0
  {
    es + seq(capacity - |es|, i => Extent(0, 0, 0))
  }

  function LeafCapacity(blockSize: nat): nat
    requires blockSize >= RECORD_BYTES
  {
    (blockSize - RECORD_BYTES) / RECORD_BYTES
  }

  /** One block more than the data needs was allocated: it is given back, or it becomes the leaf. */
  function Plan(c: Chain): (r: Chain)
    requires c.Valid() && c.regions != [] && c.last == 0
  {
    if |c.regions| <= 3 then Reduce(c, 1) else ReserveOob(c, 1).0
  }

  lemma {:induction false} ManyRegions(rs: seq<Region>)
    requires NonEmpty(rs)
    ensures Sum(rs) >= |rs|
  {
    if rs != [] { ManyRegions(rs[1..]); }
  }

  /** An allocation as the allocator returns it. */
  ghost predicate NewAllocation(c: Chain) {
    c.Valid() && c.regions != [] && c.iter == 0 && c.partial == 0 && c.last == 0 && c.oob == []
  }

  /** Of more than three regions a block can always be set aside. */
  lemma PlanSetsAside(c: Chain)
    requires NewAllocation(c)
    ensures |c.regions| > 3 ==> Plan(c).oob != []
  {
    if |c.regions| > 3 {
      hide ReserveOob;
      ManyRegions(c.regions);
      ReserveExactly(c, 1);
      assert c.regions[0..] == c.regions;
    }
  }

  /** The first block set aside. */
  function ExtraBlock(c: Chain): nat
    requires c.oob != []
  {
    c.oob[0].block
  }

  /** The tree for n regions with these records. A leaf block holds LeafCapacity records, but the check for that
      subtracts one byte from the block size and nothing else. */
  function TreeOf(es: seq<Extent>, n: nat, extentBlock: nat, blockSize: nat, alloc: Chain): Outcome
    requires blockSize >= RECORD_BYTES
  {
    if extentBlock == 0 then
      if |es| > 4 then Overrun else Written(Leaf(MAGIC, n, 3, Filled(es, 4)), map[], alloc)
    else if blockSize - 1 < n then Failed
    else if |es| > LeafCapacity(blockSize) then Overrun
    else Written(Index(MAGIC, 1, 3, 1, [extentBlock]),
                 map[extentBlock := Leaf(MAGIC, n, LeafCapacity(blockSize), Filled(es, LeafCapacity(blockSize)))],
                 alloc)
  }

  /** The tree for an allocation. */
  function WriteTree(c: Chain, blockSize: nat): Outcome
    requires NewAllocation(c) && blockSize >= RECORD_BYTES
  {
    var n := |c.regions|;
    var c' := Plan(c);
    PlanSetsAside(c);
    var extentBlock := if n <= 3 then 0 else ExtraBlock(c');
    var es := Records(if c'.iter <= |c'.regions| then c'.regions[c'.iter..] else [], 0);
    TreeOf(es, n, extentBlock, blockSize, Rewind(c'))
  }

  // ----- the reader

  /** The block list after the first n blocks of a record. */
  function ReadRecord(e: Extent, n: nat, list: map<nat, nat>): map<nat, nat> {
    if n == 0 then list else ReadRecord(e, n - 1, list)[e.block + n - 1 := e.start + n - 1]
  }

  /** The block list after the first n records. */
  function ReadRecords(es: seq<Extent>, n: nat, list: map<nat, nat>): map<nat, nat>
    requires n <= |es|
  {
    if n == 0 then list else ReadRecord(es[n - 1], es[n - 1].len, ReadRecords(es, n - 1, list))
  }

  /** Each index node leads to nodes of the disk that are less deep. */
  ghost predicate Readable(disk: map<nat, Node>, node: Node)
    decreases node.Depth()
  {
    match node
    case Leaf(_, n, _, es) => n <= |es|
    case Index(_, n, _, depth, leaves) =>
      && depth > 0 && n <= |leaves|
      && forall i :: 0 <= i < n ==>
          leaves[i] in disk.Keys && disk[leaves[i]].Depth() < depth && Readable(disk, disk[leaves[i]])
  }

  ghost function ReadTree(disk: map<nat, Node>, node: Node, list: map<nat, nat>): map<nat, nat>
    requires Readable(disk, node)
    decreases node.Depth(), 1, 0
  {
    match node
    case Leaf(_, n, _, es) => ReadRecords(es, n, list)
    case Index(_, n, _, _, _) => ReadLeaves(disk, node, n, list)
  }

  /** The block list after the first n nodes below an index node. */
  ghost function ReadLeaves(disk: map<nat, Node>, node: Node, n: nat, list: map<nat, nat>): map<nat, nat>
    requires node.Index? && Readable(disk, node) && n <= node.entries
    decreases node.Depth(), 0, n
  {
    if n == 0 then list
    else ReadTree(disk, disk[node.leaves[n - 1]], ReadLeaves(disk, node, n - 1, list))
  }

  /** The blocks of the file whose inode holds this root; a root with another magic number stops the tool. */
  ghost function BlockList(disk: map<nat, Node>, root: Node): Option<map<nat, nat>>
    requires Readable(disk, root)
  {
    if root.magic != MAGIC then None else Some(ReadTree(disk, root, map[]))
  }

  method GetExtentEnts(node: Node, list0: map<nat, nat>) returns (list: map<nat, nat>)
    requires node.Leaf? && node.entries <= |node.extents|
    ensures list == ReadRecords(node.extents, node.entries, list0)
  {
    list := list0;
    for i := 0 to node.entries
      invariant list == ReadRecords(node.extents, i, list0)
    {
      var e := node.extents[i];
      ghost var before := list;
      for j := 0 to e.len
        invariant list == ReadRecord(e, j, before)
      {
        list := list[e.block + j := e.start + j];
      }
    }
  }

  method GetExtentIdx(disk: map<nat, Node>, node: Node, list0: map<nat, nat>) returns (list: map<nat, nat>)
    requires node.Index? && Readable(disk, node)
    ensures list == ReadTree(disk, node, list0)
    decreases node.Depth()
  {
    list := list0;
    for i := 0 to node.entries
      invariant list == ReadLeaves(disk, node, i, list0)
    {
      var child := disk[node.leaves[i]];
      if child.Leaf? {
        list := GetExtentEnts(child, list);
      } else {
        list := GetExtentIdx(disk, child, list);
      }
    }
  }

  method GetBlockListExtents(disk: map<nat, Node>, root: Node) returns (list: Option<map<nat, nat>>)
    requires Readable(disk, root)
    ensures list == BlockList(disk, root)
  {
    if root.magic != MAGIC { return None; }
    var l: map<nat, nat> := map[];
    if root.Leaf? {
      l := GetExtentEnts(root, l);
    } else {
      l := GetExtentIdx(disk, root, l);
    }
    list := Some(l);
  }

  // ----- the round trip

  /** The list has exactly the file blocks below len, each mapped to the block at that place of the allocation. */
  ghost predicate Covers(list: map<nat, nat>, c: Chain, len: nat)
    requires c.iter <= |c.regions|
  {
    && (forall k: nat :: k in list.Keys <==> k < len)
    && (forall k: nat | k < len :: Block(c, k) == Some(list[k]))
  }

  /** Reading the inode back gives, for each of len blocks of the file, the block at that place of the allocation. */
  ghost predicate ReadsBack(w: Outcome, disk: map<nat, Node>, len: nat) {
    && w.Written? && w.alloc.iter <= |w.alloc.regions|
    && Readable(disk + w.blocks, w.root)
    && var list := BlockList(disk + w.blocks, w.root);
    && list.Some? && Covers(list.value, w.alloc, len)
  }

  lemma {:induction false} RecordReads(e: Extent, n: nat, list: map<nat, nat>, k: nat)
    ensures var m := ReadRecord(e, n, list);
      && (k in m <==> k in list || e.block <= k < e.block + n)
      && (k in m ==> m[k] == if e.block <= k < e.block + n then e.start + (k - e.block) else list[k])
  {
    if n > 0 { RecordReads(e, n - 1, list, k); }
  }

  /** Records written for regions of fewer than 2^16 blocks read back as the blocks of the regions. */
  lemma {:induction false} RecordsReadBack(rs: seq<Region>, es: seq<Extent>, n: nat, k: nat)
    requires n <= |rs| <= |es| && es[..|rs|] == Records(rs, 0)
    requires forall i :: 0 <= i < |rs| ==> rs[i].len < 0x1_0000
    ensures var m := ReadRecords(es, n, map[]);
      (k in m <==> k < Sum(rs[..n])) && (k in m ==> m[k] == BlocksOf(rs[..n])[k])
  {
    if n > 0 {
      var front, r := rs[..n - 1], rs[n - 1];
      RecordsReadBack(rs, es, n - 1, k);
      RecordAt(rs, n - 1, 0);
      assert es[n - 1] == es[..|rs|][n - 1];
      RecordReads(es[n - 1], r.len, ReadRecords(es, n - 1, map[]), k);
      LastBlocks(rs[..n]);
      assert rs[..n][..n - 1] == front;
    }
  }

  lemma {:induction false} RecordAt(rs: seq<Region>, k: nat, at: nat)
    requires k < |rs|
    ensures Records(rs, at)[k] == Extent(at + Sum(rs[..k]), U16(rs[k].len), rs[k].block)
  {
    if k > 0 {
      RecordAt(rs[1..], k - 1, at + rs[0].len);
      assert rs[1..][..k - 1] == rs[..k][1..];
    }
  }

  ghost predicate Sized(rs: seq<Region>) {
    && rs != [] && NonEmpty(rs)
    && forall i :: 0 <= i < |rs| ==> 0 < rs[i].block && rs[i].len < 0x1_0000
  }

  /** What becomes of the extra block: with a first region of several blocks it is that region's last block
      or its first; with a first region of one block the list loses all its regions, or all but the first. */
  lemma PlanIs(rs: seq<Region>)
    requires Sized(rs)
    ensures var c, r := Plan(NewChain(rs)), rs[0];
      && c.iter == 0 && c.partial == 0
      && c.regions == (if |rs| <= 3 then (if r.len > 1 then [r.(len := r.len - 1)] + rs[1..] else [])
                       else if r.len > 1 then [r.(block := r.block + 1, len := r.len - 1)] + rs[1..] else [r])
      && (|rs| > 3 ==> c.oob != [] && ExtraBlock(c) == if r.len > 1 then r.block else rs[1].block)
  {
    if |rs| > 3 { ReserveOne(rs); }
  }

  lemma ReserveOne(rs: seq<Region>)
    requires Sized(rs) && |rs| > 3
    ensures var c, r := ReserveOob(NewChain(rs), 1).0, rs[0];
      && c.iter == 0 && c.partial == 0
      && c.regions == (if r.len > 1 then [r.(block := r.block + 1, len := r.len - 1)] + rs[1..] else [r])
      && c.oob != [] && ExtraBlock(c) == if r.len > 1 then r.block else rs[1].block
  {
    var c, r := NewChain(rs), rs[0];
    assert Locate(rs, 0, 0) == (0, 0);
    assert DoSplit(c, 0) == (c, 0);
    if r.len > 1 {
      assert Locate(rs, 0, 1) == (0, 1);
      var front, back := r.(len := 1), r.(block := r.block + 1, len := r.len - 1);
      assert Cut(rs, 0, 1) == [front, back] + rs[1..];
      assert ([front, back] + rs[1..])[1..] == [back] + rs[1..];
    } else {
      assert Locate(rs, 0, 1) == Locate(rs, 1, 0) == (1, 0);
    }
  }

  /** The head of the list after planning, followed by the other regions. */
  lemma PlanKeepsBlocks(rs: seq<Region>)
    requires Sized(rs) && rs[0].len > 1
    ensures var c := Plan(NewChain(rs));
      && |c.regions| == |rs| && Sum(c.regions) + 1 == Sum(rs)
      && (forall i :: 0 <= i < |rs| ==> c.regions[i].len < 0x1_0000)
  {
    hide Plan;
    PlanIs(rs);
    assert Plan(NewChain(rs)).regions[1..] == rs[1..];
  }

  /** A leaf node whose first records are those of the allocation's regions reads back. */
  lemma {:induction false} LeafReadsBack(node: Node, c: Chain, disk: map<nat, Node>)
    requires node.Leaf? && c.iter == 0 && c.partial == 0
    requires node.entries == |c.regions| <= |node.extents| && node.extents[..|c.regions|] == Records(c.regions, 0)
    requires forall i :: 0 <= i < |c.regions| ==> c.regions[i].len < 0x1_0000
    ensures Covers(ReadTree(disk, node, map[]), c, Sum(c.regions))
  {
    hide ReadRecords, Records, Sum, Block, BlocksOf;
    forall k: nat
      ensures k in ReadTree(disk, node, map[]).Keys <==> k < Sum(c.regions)
      ensures k < Sum(c.regions) ==> Block(c, k) == Some(ReadTree(disk, node, map[])[k])
    {
      RecordsReadBack(c.regions, node.extents, |c.regions|, k);
      assert c.regions[..|c.regions|] == c.regions;
      BlockAt(c, k);
    }
  }

  lemma {:induction false} WriteTreeIs(rs: seq<Region>, blockSize: nat)
    requires Sized(rs) && blockSize >= 1024
    ensures |rs| > 3 ==> Plan(NewChain(rs)).oob != []
    ensures var c, n, cap := Plan(NewChain(rs)), |rs|, LeafCapacity(blockSize);
      WriteTree(NewChain(rs), blockSize) ==
        if n <= 3 then Written(Leaf(MAGIC, n, 3, Filled(Records(c.regions, 0), 4)), map[], c)
        else if blockSize - 1 < n then Failed
        else if |c.regions| > cap then Overrun
        else Written(Index(MAGIC, 1, 3, 1, [ExtraBlock(c)]),
                     map[ExtraBlock(c) := Leaf(MAGIC, n, cap, Filled(Records(c.regions, 0), cap))], c)
  {
    PlanIs(rs);
    hide Plan;
    var c := Plan(NewChain(rs));
    assert c.regions[0..] == c.regions;
    assert Rewind(c) == c;
  }

  /** The inode has 60 bytes for the header and the records. */
  lemma InodeHoldsFour(es: seq<Extent>, n: nat, blockSize: nat, alloc: Chain)
    requires blockSize >= RECORD_BYTES
    ensures TreeOf(es, n, 0, blockSize, alloc) == Overrun <==> 12 + 12 * |es| > 60
  {
  }

  /** Whatever is written starts with the magic number, and a root that starts with another one stops the reader. */
  lemma MagicDecides(c: Chain, blockSize: nat, disk: map<nat, Node>, root: Node)
    requires NewAllocation(c) && blockSize >= RECORD_BYTES && Readable(disk, root)
    ensures var w := WriteTree(c, blockSize);
      w.Written? ==> w.root.magic == 0xF30A && forall b <- w.blocks :: w.blocks[b].magic == 0xF30A
    ensures BlockList(disk, root).None? <==> root.magic != 0xF30A
  {
    hide Plan, Records, Filled, ReadTree;
  }

  /** The writer leaves the leaf block exactly when the first region has several blocks and the number of regions
      is above what the leaf holds but below the block size in bytes, with which the program compares it. */
  lemma OverrunExactly(rs: seq<Region>, blockSize: nat)
    requires Sized(rs) && blockSize >= 1024
    ensures WriteTree(NewChain(rs), blockSize) == Overrun <==>
            rs[0].len > 1 && LeafCapacity(blockSize) < |rs| < blockSize
  {
    WriteTreeIs(rs, blockSize);
    PlanIs(rs);
    hide Plan, WriteTree, Filled, Records;
    assert LeafCapacity(blockSize) >= 84 by { DivMonotone(84 * RECORD_BYTES, blockSize - RECORD_BYTES, RECORD_BYTES); }
  }

  /** A file reads back exactly when its first region has more than one block and its regions fit the leaf;
      an empty file always does. */
  lemma {:induction false} ExtentRoundTrip(rs: seq<Region>, blockSize: nat, disk: map<nat, Node>)
    requires Sized(rs) && blockSize >= 1024
    ensures ReadsBack(WriteTree(NewChain(rs), blockSize), disk, Sum(rs) - 1) <==>
            Sum(rs) == 1 || (rs[0].len > 1 && (|rs| <= 3 || |rs| <= LeafCapacity(blockSize)))
  {
    if rs[0].len > 1 {
      LongHead(rs, blockSize, disk);
    } else {
      ShortHead(rs, blockSize, disk);
    }
  }

  lemma {:induction false} LongHead(rs: seq<Region>, blockSize: nat, disk: map<nat, Node>)
    requires Sized(rs) && blockSize >= 1024 && rs[0].len > 1
    ensures ReadsBack(WriteTree(NewChain(rs), blockSize), disk, Sum(rs) - 1) <==>
      |rs| <= 3 || |rs| <= LeafCapacity(blockSize)
    ensures Sum(rs) > 1
  {
    hide Plan, WriteTree, Records, Filled, Covers, ReadRecords;
    WriteTreeIs(rs, blockSize);
    PlanIs(rs);
    PlanKeepsBlocks(rs);
    var c, w := Plan(NewChain(rs)), WriteTree(NewChain(rs), blockSize);
    if |rs| <= 3 {
      LeafReadsBack(w.root, c, disk + w.blocks);
    } else if w.Written? {
      LeafBlockReadsBack(w, c, disk);
    } else {
      assert |rs| > LeafCapacity(blockSize);
    }
  }

  /** A root whose one index entry names the block of such a leaf reads back too. */
  lemma LeafBlockReadsBack(w: Outcome, c: Chain, disk: map<nat, Node>)
    requires c.iter == 0 && c.partial == 0 && w.Written? && w.alloc == c
    requires w.root.Index? && w.root.magic == MAGIC && w.root.entries == 1 && w.root.depth == 1 && |w.root.leaves| == 1
    requires w.root.leaves[0] in w.blocks
    requires var node := w.blocks[w.root.leaves[0]];
      && node.Leaf? && node.entries == |c.regions| <= |node.extents|
        && node.extents[..|c.regions|] == Records(c.regions, 0)
    requires forall i :: 0 <= i < |c.regions| ==> c.regions[i].len < 0x1_0000
    ensures ReadsBack(w, disk, Sum(c.regions))
  {
    hide Records, Covers, ReadRecords;
    var all := disk + w.blocks;
    var node := all[w.root.leaves[0]];
    LeafReadsBack(node, c, all);
    assert ReadTree(all, w.root, map[]) == ReadLeaves(all, w.root, 1, map[])
        == ReadTree(all, node, ReadLeaves(all, w.root, 0, map[]));
  }

  lemma {:induction false} ShortHead(rs: seq<Region>, blockSize: nat, disk: map<nat, Node>)
    requires Sized(rs) && blockSize >= 1024 && rs[0].len == 1
    ensures ReadsBack(WriteTree(NewChain(rs), blockSize), disk, Sum(rs) - 1) <==> Sum(rs) == 1
  {
    hide Plan, WriteTree, Records, Filled, ReadRecords, Block;
    WriteTreeIs(rs, blockSize);
    PlanIs(rs);
    ManyRegions(rs[1..]);
    var c, w := Plan(NewChain(rs)), WriteTree(NewChain(rs), blockSize);
    if Sum(rs) == 1 {
      assert |rs| == 1 && c.regions == [];
      EmptyLeaf(w.root.extents);
    } else if |rs| <= 3 {
      BlockAt(c, 0);
    } else {
      assert [rs[0]][1..] == [];
      BlockAt(c, 1);
    }
  }

  lemma EmptyLeaf(es: seq<Extent>)
    requires |es| >= 1 && es[0].len == 0
    ensures ReadRecords(es, 1, map[]) == map[]
  {
    assert ReadRecords(es, 1, map[]) == ReadRecord(es[0], 0, ReadRecords(es, 0, map[]));
  }

  /** Where the extra block went: nothing of the allocation is lost or doubled. */
  lemma {:induction false} NothingIsLost(rs: seq<Region>)
    requires Sized(rs) && rs[0].len > 1
    ensures var data, r := BlocksOf(Plan(NewChain(rs)).regions), rs[0];
      if |rs| <= 3 then data[..r.len - 1] + [r.block + r.len - 1] + data[r.len - 1..] == BlocksOf(rs)
      else [r.block] + data == BlocksOf(rs)
  {
    hide Plan, BlocksOf, RegionBlocks;
    PlanIs(rs);
    hide NonEmpty;
    var r, c := rs[0], Plan(NewChain(rs));
    HeadAndRest(c.regions[0], rs[1..]);
    HeadAndRest(r, rs[1..]);
    assert c.regions == [c.regions[0]] + rs[1..] && rs == [r] + rs[1..];
    var rest := BlocksOf(rs[1..]);
    if |rs| <= 3 {
      LastBlockOf(r);
      PutBack(RegionBlocks(r.(len := r.len - 1)), r.block + r.len - 1, rest);
    } else {
      FirstBlockOf(r);
      var back := RegionBlocks(c.regions[0]);
      assert [r.block] + (back + rest) == ([r.block] + back) + rest;
    }
  }

  lemma LastBlockOf(r: Region)
    requires r.len > 0
    ensures RegionBlocks(r) == RegionBlocks(r.(len := r.len - 1)) + [r.block + r.len - 1]
  {
  }

  lemma FirstBlockOf(r: Region)
    requires r.len > 0
    ensures RegionBlocks(r) == [r.block] + RegionBlocks(r.(block := r.block + 1, len := r.len - 1))
  {
  }

  lemma PutBack(front: seq<nat>, x: nat, rest: seq<nat>)
    ensures (front + rest)[..|front|] + [x] + (front + rest)[|front|..] == front + [x] + rest
  {
  }

  lemma HeadAndRest(r: Region, rest: seq<Region>)
    ensures BlocksOf([r] + rest) == RegionBlocks(r) + BlocksOf(rest)
  {
    assert ([r] + rest)[1..] == rest;
  }
}
