/** The inode renumbering tool: what one run does to the disk, one block write at a time.

    Power is the number of writes the machine still makes before it stops; a run that
    reaches a write without power ends there, which is a crash after any chosen write. */
module Fixup {
  import opened Arith

  const HIGH_BIT: nat := 0x8000_0000
  const ROOT_INO: nat := 2

  /** The physical place of an inode: its block group and its index in that group's table. */
  datatype Slot = Slot(group: nat, offset: nat)

  datatype FileType = FtUnknown | FtDir | FtOther

  /** A directory record; `block` says which block of the directory it lies in. */
  datatype Entry = Entry(inum: nat, recLen: nat, name: string, ftype: FileType, block: nat)

  /** The records of a directory of `blocks` blocks and `size` bytes; zero bytes follow the last record. */
  datatype Dir = Dir(entries: seq<Entry>, blocks: nat, size: nat)

  datatype Phase = Unset | MarkingInums | UpdatingInums | UpdatingSb

  /** What a superblock says about inode numbering; `locked` is the low bit of s_desc_size. */
  datatype Super = Super(ipg: pos, locked: bool)

  /** `dirs` holds the inode slots that are directories, `sbs` the primary superblock and its backups. */
  datatype Disk = Disk(dirs: map<Slot, Dir>, phase: Phase, sbs: seq<Super>, inodesPerBlock: pos)

  datatype Mode = SanityCheck | MarkNums | UpdateNums
  datatype Power = Forever | Writes(n: nat)
  datatype Status = Ok | Cut | Fatal
  datatype Geometry = Geometry(ipg: pos, newIpg: pos)

  datatype Result = Result(disk: Disk, power: Power, status: Status)
  datatype Walked = Walked(disk: Disk, power: Power, status: Status, buf: seq<Entry>)

  predicate Marked(inum: nat) {
    inum >= HIGH_BIT
  }

  function Mark(inum: nat): nat {
    if Marked(inum) then inum else inum + HIGH_BIT
  }

  function Unmark(inum: nat): nat {
    if Marked(inum) then inum - HIGH_BIT else inum
  }

  function SlotOf(inum: nat, ipg: pos): Slot {
    Slot(U32(inum - 1) / ipg, U32(inum - 1) % ipg)
  }

  function NewInum(inum: nat, g: Geometry): nat {
    U32(U32(inum - 1) / g.ipg * g.newIpg + U32(inum - 1) % g.ipg + 1)
  }

  function NewIpg(d: Disk): (r: pos)
    requires |d.sbs| > 0
  {
    AlignBounds(d.sbs[0].ipg, d.inodesPerBlock);
    Align(d.sbs[0].ipg, d.inodesPerBlock)
  }

  function GeometryOf(d: Disk): Geometry
    requires |d.sbs| > 0
  {
    Geometry(d.sbs[0].ipg, NewIpg(d))
  }

  function Spend(p: Power): Power
    requires p != Writes(0)
  {
    match p
    case Forever => Forever
    case Writes(n) => Writes(n - 1)
  }

  function Rewrite(inum: nat, mode: Mode, g: Geometry): nat {
    match mode
    case SanityCheck => inum
    case MarkNums => Mark(inum)
    case UpdateNums => if Marked(inum) then NewInum(Unmark(inum), g) else inum
  }

  predicate IsDots(name: string) {
    name == "." || name == ".."
  }

  /** Whether the walk enters the directory this record names; `dirs` are the inodes that are directories. */
  predicate Descends(dirs: set<Slot>, e: Entry, mode: Mode, g: Geometry) {
    && (match e.ftype
        case FtDir => true
        case FtUnknown => !(mode == UpdateNums && !Marked(e.inum)) && SlotOf(Unmark(e.inum), g.ipg) in dirs
        case FtOther => false)
    && !IsDots(e.name)
    && (mode == UpdateNums ==> Marked(e.inum))
  }

  /** The parts of the disk that rewriting directory records leaves alone. */
  ghost predicate SameFrame(d: Disk, d': Disk) {
    && d'.dirs.Keys == d.dirs.Keys
    && d' == d.(dirs := d'.dirs)
    && forall s <- d.dirs :: SameLayout(d.dirs[s], d'.dirs[s])
  }

  ghost predicate SameLayout(x: Dir, y: Dir) {
    |y.entries| == |x.entries| && y.blocks == x.blocks && y.size == x.size
  }

  /** A directory after its b-th block was overwritten from the buffer. */
  function PutBlock(dir: Dir, buf: seq<Entry>, b: nat): Dir
    requires |buf| == |dir.entries|
  {
    dir.(entries := seq(|buf|, k requires 0 <= k < |buf| =>
                     if dir.entries[k].block == b then buf[k] else dir.entries[k]))
  }

  /** The loop writing back the blocks of a directory, from block b on. */
  function WriteBlocks(d: Disk, p: Power, s: Slot, buf: seq<Entry>, b: nat): (r: Result)
    requires s in d.dirs && |buf| == |d.dirs[s].entries|
    ensures SameFrame(d, r.disk)
    decreases d.dirs[s].blocks - b
  {
    if b >= d.dirs[s].blocks then Result(d, p, Ok)
    else if p == Writes(0) then Result(d, p, Cut)
    else WriteBlocks(d.(dirs := d.dirs[s := PutBlock(d.dirs[s], buf, b)]), Spend(p), s, buf, b + 1)
  }

  /** The walk over the records in the buffer, from record i at byte `at` on. */
  function Walk(d: Disk, p: Power, buf: seq<Entry>, i: nat, at: nat, size: nat, mode: Mode, g: Geometry,
          stack: nat): (r: Walked)
    requires i <= |buf|
    ensures SameFrame(d, r.disk) && |r.buf| == |buf|
    decreases stack, |buf| - i + 1
  {
    if at >= size then Walked(d, p, Ok, buf)
    else if mode != MarkNums && size - at <= 8 && i > 0 then
      Walked(d, p, Ok, buf[i - 1 := buf[i - 1].(recLen := buf[i - 1].recLen + (size - at))])
    else if i == |buf| || buf[i].inum == 0 then Walked(d, p, Ok, buf)
    else
      var e := buf[i];
      var r := Enter(d, p, e, mode, g, stack);
      if r.status != Ok then Walked(r.disk, r.power, r.status, buf)
      else
        var buf := buf[i := e.(inum := Rewrite(e.inum, mode, g))];
        Walk(r.disk, r.power, buf, i + 1, at + e.recLen, size, mode, g, stack)
  }

  /** What the walk does about a record before rewriting it: recurse when it names a directory to enter. */
  function Enter(d: Disk, p: Power, e: Entry, mode: Mode, g: Geometry, stack: nat): (r: Result)
    ensures SameFrame(d, r.disk)
    decreases stack, 1
  {
    if !Descends(d.dirs.Keys, e, mode, g) then Result(d, p, Ok)
    else if SlotOf(Unmark(e.inum), g.ipg) !in d.dirs then Result(d, p, Fatal)
    else RecurseDir(d, p, SlotOf(Unmark(e.inum), g.ipg), mode, g, stack)
  }

  /** One pass over the directory tree at s; `stack` bounds the recursion as the call stack does. */
  function RecurseDir(d: Disk, p: Power, s: Slot, mode: Mode, g: Geometry, stack: nat): (r: Result)
    requires s in d.dirs
    ensures SameFrame(d, r.disk)
    decreases stack, 0
  {
    if stack == 0 then Result(d, p, Fatal)
    else
      var w := Walk(d, p, d.dirs[s].entries, 0, 0, d.dirs[s].size, mode, g, stack - 1);
      if w.status != Ok || mode == SanityCheck then Result(w.disk, w.power, w.status)
      else WriteBlocks(w.disk, w.power, s, w.buf, 0)
  }

  /** Record the phase in the boot block, then lock or unlock the primary superblock: two writes. */
  function SetPhase(d: Disk, p: Power, phase: Phase): (r: Result)
    requires |d.sbs| > 0
    ensures |r.disk.sbs| == |d.sbs| && r.disk.dirs == d.dirs
  {
    if p == Writes(0) then Result(d, p, Cut)
    else
      var d1, p1 := d.(phase := phase), Spend(p);
      if p1 == Writes(0) then Result(d1, p1, Cut)
      else Result(d1.(sbs := d1.sbs[0 := d1.sbs[0].(locked := phase != Unset)]), Spend(p1), Ok)
  }

  /** The loop over the groups with a superblock: rewrite the superblock, then the descriptor table. */
  function UpdateSupers(d: Disk, p: Power, newIpg: pos, i: nat): (r: Result)
    ensures |r.disk.sbs| == |d.sbs|
    decreases |d.sbs| - i
  {
    if i >= |d.sbs| then Result(d, p, Ok)
    else if p == Writes(0) then Result(d, p, Cut)
    else
      var d1, p1 := d.(sbs := d.sbs[i := Super(newIpg, i == 0 && d.sbs[0].locked)]), Spend(p);
      if p1 == Writes(0) then Result(d1, p1, Cut)
      else UpdateSupers(d1, Spend(p1), newIpg, i + 1)
  }

  /** A pass over the whole tree and, when it completes, the move to the next phase. */
  function Pass(d: Disk, p: Power, mode: Mode, next: Phase, g: Geometry, stack: nat): (r: Result)
    requires |d.sbs| > 0 && SlotOf(ROOT_INO, g.ipg) in d.dirs
    ensures |r.disk.sbs| == |d.sbs| && r.disk.dirs.Keys == d.dirs.Keys
  {
    var r := RecurseDir(d, p, SlotOf(ROOT_INO, g.ipg), mode, g, stack);
    if r.status != Ok then r else SetPhase(r.disk, r.power, next)
  }

  /** The last phase: rewrite the superblocks, then clear the phase and unlock. */
  function Finish(d: Disk, p: Power, g: Geometry): (r: Result)
    requires |d.sbs| > 0
    ensures |r.disk.sbs| == |d.sbs|
  {
    var r := UpdateSupers(d, p, g.newIpg, 0);
    if r.status != Ok then r else SetPhase(r.disk, r.power, Unset)
  }

  /** One run of the tool: each stage starts when the phase on disk says so. */
  function Run(d: Disk, p: Power, stack: nat): (r: Result)
    requires |d.sbs| > 0
    ensures |r.disk.sbs| == |d.sbs|
  {
    var g := GeometryOf(d);
    if SlotOf(ROOT_INO, g.ipg) !in d.dirs then Result(d, p, Fatal)
    else
      var r0 := if d.phase == Unset then Pass(d, p, SanityCheck, MarkingInums, g, stack) else Result(d, p, Ok);
      if r0.status != Ok then r0 else
      var r1 := if r0.disk.phase != MarkingInums then r0
                else Pass(r0.disk, r0.power, MarkNums, UpdatingInums, g, stack);
      if r1.status != Ok then r1 else
      var r2 := if r1.disk.phase != UpdatingInums then r1
                else Pass(r1.disk, r1.power, UpdateNums, UpdatingSb, g, stack);
      if r2.status != Ok || r2.disk.phase != UpdatingSb then r2
      else Finish(r2.disk, r2.power, g)
  }

  /** The disk after a sequence of runs, each given its own power. */
  function RunMany(d: Disk, powers: seq<Power>, stack: nat): (r: Disk)
    requires |d.sbs| > 0
    ensures |r.sbs| == |d.sbs|
    decreases |powers|
  {
    if powers == [] then d else RunMany(Run(d, powers[0], stack).disk, powers[1..], stack)
  }
}
