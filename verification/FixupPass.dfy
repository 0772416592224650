/** One renumbering pass: what every block write keeps, and what a completed pass has done. */
module FixupPass {
  import opened Arith
  import opened Fixup

  /** An acyclic reachable directory graph: a height that drops along every entered record,
      and for each directory one record of a higher directory that names it. */
  datatype Tree = Tree(height: map<Slot, nat>, parent: map<Slot, (Slot, nat)>)

  const ROOT: Slot := Slot(0, 1)

  /** The number of records before the first one with a zero inode number, counting from record i. */
  ghost function LiveFrom(es: seq<Entry>, i: nat): (n: nat)
    requires i <= |es|
    ensures i <= n <= |es|
    ensures forall k :: i <= k < n ==> es[k].inum != 0
    ensures n < |es| ==> es[n].inum == 0
    decreases |es| - i
  {
    if i < |es| && es[i].inum != 0 then LiveFrom(es, i + 1) else i
  }

  /** The records the tool can see: those before the first zero inode number. */
  ghost function LiveCount(es: seq<Entry>): nat {
    LiveFrom(es, 0)
  }

  lemma {:induction false} AllLive(es: seq<Entry>, i: nat)
    requires i <= |es| && forall k :: 0 <= k < |es| ==> es[k].inum != 0
    ensures LiveFrom(es, i) == |es|
    decreases |es| - i
  {
    if i < |es| { AllLive(es, i + 1); }
  }

  /** The byte at which record k starts. */
  ghost function ByteAt(es: seq<Entry>, k: nat): nat
    requires k <= |es|
  {
    if k == 0 then 0 else ByteAt(es, k - 1) + es[k - 1].recLen
  }

  /** The at most 8 bytes that an old image builder left uncovered behind the last record. */
  ghost function Tail(dir: Dir): nat {
    var n := |dir.entries|;
    var end := ByteAt(dir.entries, n);
    if 0 < n == LiveCount(dir.entries) && end < dir.size <= end + 8 then dir.size - end else 0
  }

  ghost predicate ValidDir(dir: Dir) {
    && ByteAt(dir.entries, |dir.entries|) <= dir.size
    && forall k :: 0 <= k < |dir.entries| ==> dir.entries[k].recLen > 8 && dir.entries[k].block < dir.blocks
  }

  ghost predicate ValidInum(n: nat, g: Geometry) {
    1 <= n < HIGH_BIT && (n - 1) / g.ipg * g.newIpg + (n - 1) % g.ipg + 1 < HIGH_BIT
  }

  ghost function SlotAt(img: Disk, s: Slot, k: nat): Slot
    requires |img.sbs| > 0 && s in img.dirs && k < |img.dirs[s].entries|
  {
    SlotOf(img.dirs[s].entries[k].inum, img.sbs[0].ipg)
  }

  /** Record k of s names a directory that the passes enter. */
  ghost predicate Subdir(img: Disk, s: Slot, k: nat)
    requires |img.sbs| > 0 && s in img.dirs
  {
    && k < LiveCount(img.dirs[s].entries)
    && var e := img.dirs[s].entries[k];
    && !IsDots(e.name)
    && (e.ftype == FtDir || (e.ftype == FtUnknown && SlotAt(img, s, k) in img.dirs))
  }

  ghost predicate ValidRecord(img: Disk, t: Tree, s: Slot, k: nat)
    requires |img.sbs| > 0 && s in img.dirs && s in t.height && k < |img.dirs[s].entries|
  {
    && (k < LiveCount(img.dirs[s].entries) ==>
        && ValidInum(img.dirs[s].entries[k].inum, GeometryOf(img))
        && (SlotAt(img, s, k) in img.dirs ==> SlotAt(img, s, k) in t.height))
    && (Subdir(img, s, k) ==> SlotAt(img, s, k) in t.height && t.height[SlotAt(img, s, k)] < t.height[s])
  }

  /** A consistent image with reachable directories t. */
  ghost predicate WellFormed(img: Disk, t: Tree) {
    && |img.sbs| > 0 && img.sbs[0].ipg >= 2
    && ROOT in t.height
    && t.height.Keys <= img.dirs.Keys
    && (forall s <- t.height :: ValidDir(img.dirs[s]) && t.height[s] <= t.height[ROOT])
    && (forall s <- t.height, k: nat | k < |img.dirs[s].entries| :: ValidRecord(img, t, s, k))
    && (forall s <- t.height | s != ROOT :: HasParent(img, t, s))
  }

  ghost predicate HasParent(img: Disk, t: Tree, s: Slot)
    requires |img.sbs| > 0
  {
    && s in t.parent
    && var (q, k) := t.parent[s];
    && q in t.height && q in img.dirs && Subdir(img, q, k) && SlotAt(img, q, k) == s
  }

  // ----- byte positions

  lemma {:induction false} ByteAtMonotone(es: seq<Entry>, i: nat, j: nat)
    requires i <= j <= |es|
    ensures ByteAt(es, i) <= ByteAt(es, j)
  {
    if i < j { ByteAtMonotone(es, i, j - 1); }
  }

  lemma {:induction false} ByteAtSame(xs: seq<Entry>, ys: seq<Entry>, n: nat)
    requires n <= |xs| && n <= |ys|
    requires forall k :: 0 <= k < n ==> xs[k].recLen == ys[k].recLen
    ensures ByteAt(xs, n) == ByteAt(ys, n)
  {
    if n > 0 { ByteAtSame(xs, ys, n - 1); }
  }

  // ----- what a pass is to do

  /** The work of a pass on one directory: record k goes from before[k] to after[k], once the
      directory child[k] is finished; the first `live` records are the ones the walk reaches. */
  datatype Job = Job(before: seq<Entry>, after: seq<Entry>, child: seq<Option<Slot>>, live: nat, height: nat)
  {
    ghost predicate Sized() {
      |before| == |after| == |child| && live <= |after|
    }
  }

  ghost predicate ValidPlan(plan: map<Slot, Job>) {
    forall s <- plan :: plan[s].Sized() && forall c: Slot | Some(c) in plan[s].child ::
      c in plan && plan[c].height < plan[s].height
  }

  ghost predicate Done(plan: map<Slot, Job>, d: Disk, s: Slot) {
    s in plan && s in d.dirs && d.dirs[s].entries == plan[s].after
  }

  /** A record is untouched or finished, and a finished record names a finished directory if any. */
  ghost predicate RecordOk(plan: map<Slot, Job>, d: Disk, s: Slot, k: nat)
    requires s in plan && plan[s].Sized() && k < |plan[s].after| && s in d.dirs
  {
    && k < |d.dirs[s].entries|
    && var e := d.dirs[s].entries[k];
    && (e == plan[s].before[k] || e == plan[s].after[k])
    && (e == plan[s].after[k] && plan[s].child[k].Some? ==> Done(plan, d, plan[s].child[k].value))
  }

  /** The invariant of a pass, at every block write. */
  ghost predicate PassInv(plan: map<Slot, Job>, d: Disk) {
    && ValidPlan(plan)
    && (forall s <- plan :: s in d.dirs && |d.dirs[s].entries| == |plan[s].after|)
    && (forall s <- plan, k: nat | k < |plan[s].after| :: RecordOk(plan, d, s, k))
  }

  /** From d to d' finished directories stay finished, and only directories of the plan below height h change. */
  ghost predicate Advanced(plan: map<Slot, Job>, d: Disk, d': Disk, h: nat) {
    && SameFrame(d, d')
    && (forall u <- plan :: Done(plan, d, u) ==> Done(plan, d', u))
    && (forall u <- d.dirs | u !in plan || plan[u].height >= h :: d'.dirs[u] == d.dirs[u])
  }

  /** The directories named by the first i records of s are finished. */
  ghost predicate ChildrenDone(plan: map<Slot, Job>, d: Disk, s: Slot, i: nat)
    requires s in plan && i <= |plan[s].child|
  {
    forall k :: 0 <= k < i && plan[s].child[k].Some? ==> Done(plan, d, plan[s].child[k].value)
  }

  /** Only s changed, and each of its records is as it was or finished. */
  ghost predicate Moved(plan: map<Slot, Job>, d: Disk, d': Disk, s: Slot)
    requires s in plan && s in d.dirs
  {
    && d'.dirs.Keys == d.dirs.Keys
    && (forall u <- d.dirs | u != s :: d'.dirs[u] == d.dirs[u])
    && |d'.dirs[s].entries| == |d.dirs[s].entries| == |plan[s].after|
    && forall k :: 0 <= k < |plan[s].after| ==>
         d'.dirs[s].entries[k] == d.dirs[s].entries[k] || d'.dirs[s].entries[k] == plan[s].after[k]
  }

  lemma MovedKeepsInv(plan: map<Slot, Job>, d: Disk, d': Disk, s: Slot)
    requires PassInv(plan, d) && s in plan && Moved(plan, d, d', s)
    requires ChildrenDone(plan, d, s, |plan[s].child|)
    ensures PassInv(plan, d')
    ensures forall u <- plan :: Done(plan, d, u) ==> Done(plan, d', u)
  {
    forall u <- plan, k: nat | k < |plan[u].after|
      ensures RecordOk(plan, d', u, k)
    {
      MovedKeepsRecord(plan, d, d', s, u, k);
    }
  }

  lemma MovedKeepsRecord(plan: map<Slot, Job>, d: Disk, d': Disk, s: Slot, u: Slot, k: nat)
    requires PassInv(plan, d) && s in plan && Moved(plan, d, d', s)
    requires ChildrenDone(plan, d, s, |plan[s].child|)
    requires u in plan && k < |plan[u].after|
    ensures u in d'.dirs && RecordOk(plan, d', u, k)
  {
    assert RecordOk(plan, d, u, k);
    if plan[u].child[k].Some? && Done(plan, d, plan[u].child[k].value) {
      assert d'.dirs[plan[u].child[k].value].entries == plan[plan[u].child[k].value].after;
    }
  }

  /** The records in the blocks before b are finished, and every record is in a block of the directory. */
  ghost predicate Written(plan: map<Slot, Job>, d: Disk, s: Slot, b: nat)
    requires s in plan && s in d.dirs && |d.dirs[s].entries| == |plan[s].after|
  {
    forall k :: 0 <= k < |plan[s].after| ==>
      && d.dirs[s].entries[k].block == plan[s].after[k].block < d.dirs[s].blocks
      && (plan[s].after[k].block < b ==> d.dirs[s].entries[k] == plan[s].after[k])
  }

  /** Writing a finished buffer back, block by block, keeps the invariant and, completed, finishes the directory. */
  lemma {:induction false} WriteBlocksKeeps(plan: map<Slot, Job>, d: Disk, p: Power, s: Slot, b: nat)
    requires PassInv(plan, d) && s in plan && ChildrenDone(plan, d, s, |plan[s].child|)
    requires s in d.dirs && |d.dirs[s].entries| == |plan[s].after| && Written(plan, d, s, b)
    ensures var r := WriteBlocks(d, p, s, plan[s].after, b);
      && r.status != Fatal && PassInv(plan, r.disk)
      && (p == Forever ==> r.power == Forever && r.status == Ok)
      && Advanced(plan, d, r.disk, plan[s].height + 1)
      && (forall u <- d.dirs | u != s :: r.disk.dirs[u] == d.dirs[u])
      && (r.status == Ok ==> Done(plan, r.disk, s))
    decreases d.dirs[s].blocks - b
  {
    hide PassInv, ChildrenDone, Advanced, Written, Done, SameFrame;
    if b >= d.dirs[s].blocks {
      AdvancedSelf(plan, d, plan[s].height + 1);
      AllWritten(plan, d, s, b);
    } else if p == Writes(0) {
      AdvancedSelf(plan, d, plan[s].height + 1);
    } else {
      BlockKeeps(plan, d, s, b);
      var d' := d.(dirs := d.dirs[s := PutBlock(d.dirs[s], plan[s].after, b)]);
      WriteBlocksKeeps(plan, d', Spend(p), s, b + 1);
      AdvancedOn(plan, d, d', WriteBlocks(d', Spend(p), s, plan[s].after, b + 1).disk, plan[s].height + 1);
    }
  }

  lemma AllWritten(plan: map<Slot, Job>, d: Disk, s: Slot, b: nat)
    requires s in plan && s in d.dirs && |d.dirs[s].entries| == |plan[s].after|
    requires Written(plan, d, s, b) && b >= d.dirs[s].blocks
    ensures Done(plan, d, s)
  {
    assert d.dirs[s].entries == plan[s].after;
  }

  /** One block of it. */
  lemma BlockKeeps(plan: map<Slot, Job>, d: Disk, s: Slot, b: nat)
    requires PassInv(plan, d) && s in plan && ChildrenDone(plan, d, s, |plan[s].child|)
    requires s in d.dirs && |d.dirs[s].entries| == |plan[s].after| && Written(plan, d, s, b)
    ensures var d' := d.(dirs := d.dirs[s := PutBlock(d.dirs[s], plan[s].after, b)]);
      && PassInv(plan, d') && ChildrenDone(plan, d', s, |plan[s].child|) && Written(plan, d', s, b + 1)
      && Advanced(plan, d, d', plan[s].height + 1)
  {
    hide RecordOk;
    MovedKeepsInv(plan, d, d.(dirs := d.dirs[s := PutBlock(d.dirs[s], plan[s].after, b)]), s);
  }

  lemma AdvancedOn(plan: map<Slot, Job>, d: Disk, d': Disk, d'': Disk, h: nat)
    requires Advanced(plan, d, d', h) && Advanced(plan, d', d'', h)
    ensures Advanced(plan, d, d'', h)
  {
  }

  lemma AdvancedSelf(plan: map<Slot, Job>, d: Disk, h: nat)
    ensures Advanced(plan, d, d, h)
  {
  }

  // ----- the work a pass has on a well-formed image

  ghost function InumBefore(n: nat, mode: Mode): nat {
    if mode == UpdateNums then n + HIGH_BIT else n
  }

  ghost function InumAfter(n: nat, mode: Mode, g: Geometry): nat {
    if mode == UpdateNums then NewInum(n, g) else n + HIGH_BIT
  }

  ghost function Before(dir: Dir, k: nat, mode: Mode): Entry
    requires k < |dir.entries|
  {
    var e := dir.entries[k];
    if k < LiveCount(dir.entries) then e.(inum := InumBefore(e.inum, mode)) else e
  }

  ghost function After(dir: Dir, k: nat, mode: Mode, g: Geometry): Entry
    requires k < |dir.entries|
  {
    var e := dir.entries[k];
    if k >= LiveCount(dir.entries) then e
    else e.(inum := InumAfter(e.inum, mode, g),
            recLen := e.recLen + if mode == UpdateNums && k == |dir.entries| - 1 then Tail(dir) else 0)
  }

  ghost function BeforeDir(dir: Dir, mode: Mode): (r: seq<Entry>)
    ensures |r| == |dir.entries|
  {
    seq(|dir.entries|, k requires 0 <= k < |dir.entries| => Before(dir, k, mode))
  }

  ghost function AfterDir(dir: Dir, mode: Mode, g: Geometry): (r: seq<Entry>)
    ensures |r| == |dir.entries|
  {
    seq(|dir.entries|, k requires 0 <= k < |dir.entries| => After(dir, k, mode, g))
  }

  ghost function JobOf(img: Disk, t: Tree, s: Slot, mode: Mode): (job: Job)
    requires WellFormed(img, t) && s in t.height
    ensures job.Sized()
  {
    var dir := img.dirs[s];
    Job(BeforeDir(dir, mode), AfterDir(dir, mode, GeometryOf(img)),
        seq(|dir.entries|, k requires 0 <= k < |dir.entries| =>
              if Subdir(img, s, k) then Some(SlotAt(img, s, k)) else None),
        LiveCount(dir.entries), t.height[s])
  }

  ghost function PlanOf(img: Disk, t: Tree, mode: Mode): map<Slot, Job>
    requires WellFormed(img, t)
  {
    map s | s in t.height :: JobOf(img, t, s, mode)
  }

  /** How the code treats a record e, untouched or finished, given the job it is part of. */
  ghost predicate RecordFits(job: Job, keys: set<Slot>, k: nat, e: Entry, mode: Mode, g: Geometry)
    requires job.Sized() && k < |job.after|
  {
    && e.inum != 0
    && Rewrite(e.inum, mode, g) == job.after[k].inum
    && (Descends(keys, e, mode, g) ==>
        SlotOf(Unmark(e.inum), g.ipg) in keys && job.child[k] == Some(SlotOf(Unmark(e.inum), g.ipg)))
    && (!Descends(keys, e, mode, g) && job.child[k].Some? ==> e == job.after[k])
  }

  /** The job describes what the walk does to the directory. */
  ghost predicate JobFits(dir: Dir, job: Job, keys: set<Slot>, mode: Mode, g: Geometry) {
    && ValidDir(dir)
    && job.before == BeforeDir(dir, mode) && job.after == AfterDir(dir, mode, g)
    && |job.child| == |dir.entries| && job.live == LiveCount(dir.entries)
    && (forall k: nat | k < job.live ::
          RecordFits(job, keys, k, job.before[k], mode, g) && RecordFits(job, keys, k, job.after[k], mode, g))
    && (forall k: nat | job.live <= k < |job.child| :: job.child[k] == None)
  }

  /** A valid number is renumbered without wrap-around, to an unmarked number. */
  lemma NewInumExact(n: nat, g: Geometry)
    requires ValidInum(n, g)
    ensures NewInum(n, g) == (n - 1) / g.ipg * g.newIpg + (n - 1) % g.ipg + 1
    ensures 1 <= NewInum(n, g) < HIGH_BIT
  {
    MulMonotone(0, (n - 1) / g.ipg, g.newIpg);
  }

  lemma RecordIsValid(img: Disk, t: Tree, s: Slot, k: nat)
    requires WellFormed(img, t) && s in t.height && k < LiveCount(img.dirs[s].entries)
    ensures |img.sbs| > 0 && s in img.dirs && k < |img.dirs[s].entries|
    ensures 1 <= img.dirs[s].entries[k].inum < HIGH_BIT
      && 1 <= NewInum(img.dirs[s].entries[k].inum, GeometryOf(img)) < HIGH_BIT
    ensures SlotAt(img, s, k) in img.dirs ==> SlotAt(img, s, k) in t.height
    ensures Subdir(img, s, k) ==> SlotAt(img, s, k) in img.dirs && t.height[SlotAt(img, s, k)] < t.height[s]
  {
    assert ValidRecord(img, t, s, k);
    NewInumExact(img.dirs[s].entries[k].inum, GeometryOf(img));
  }

  lemma RecordOfFits(img: Disk, t: Tree, s: Slot, k: nat, e: Entry, mode: Mode)
    requires WellFormed(img, t) && s in t.height && mode != SanityCheck
    requires k < LiveCount(img.dirs[s].entries)
    requires e == Before(img.dirs[s], k, mode) || e == After(img.dirs[s], k, mode, GeometryOf(img))
    ensures RecordFits(JobOf(img, t, s, mode), img.dirs.Keys, k, e, mode, GeometryOf(img))
  {
    hide WellFormed, NewInum, SlotOf, Tail;
    RecordIsValid(img, t, s, k);
  }

  lemma JobOfFits(img: Disk, t: Tree, s: Slot, mode: Mode)
    requires WellFormed(img, t) && s in t.height && mode != SanityCheck
    ensures JobFits(img.dirs[s], JobOf(img, t, s, mode), img.dirs.Keys, mode, GeometryOf(img))
  {
    hide RecordFits;
    var job, g := JobOf(img, t, s, mode), GeometryOf(img);
    forall k: nat | k < job.live
      ensures RecordFits(job, img.dirs.Keys, k, job.before[k], mode, g)
        && RecordFits(job, img.dirs.Keys, k, job.after[k], mode, g)
    {
      RecordOfFits(img, t, s, k, job.before[k], mode);
      RecordOfFits(img, t, s, k, job.after[k], mode);
    }
  }

  lemma ChildIsLower(img: Disk, t: Tree, s: Slot, mode: Mode, c: Slot)
    requires WellFormed(img, t) && s in t.height && Some(c) in JobOf(img, t, s, mode).child
    ensures c in t.height && t.height[c] < t.height[s]
  {
    var child := JobOf(img, t, s, mode).child;
    var k: nat :| k < |child| && child[k] == Some(c);
    assert ValidRecord(img, t, s, k);
  }

  lemma PlanIsValid(img: Disk, t: Tree, mode: Mode)
    requires WellFormed(img, t)
    ensures ValidPlan(PlanOf(img, t, mode))
  {
    var plan := PlanOf(img, t, mode);
    forall s <- plan
      ensures plan[s].Sized() && forall c: Slot | Some(c) in plan[s].child ::
        c in plan && plan[c].height < plan[s].height
    {
      forall c: Slot | Some(c) in plan[s].child
        ensures c in plan && plan[c].height < plan[s].height
      {
        ChildIsLower(img, t, s, mode, c);
      }
    }
  }

  // ----- the walk

  /** The disk during a pass with the given plan over the directories of an image. */
  ghost predicate Passing(dirs: map<Slot, Dir>, plan: map<Slot, Job>, d: Disk, mode: Mode, g: Geometry) {
    && mode != SanityCheck
    && d.dirs.Keys == dirs.Keys
    && (forall s <- dirs :: SameLayout(dirs[s], d.dirs[s]))
    && (forall s <- plan :: s in dirs && JobFits(dirs[s], plan[s], dirs.Keys, mode, g))
    && PassInv(plan, d)
  }

  /** Records of one directory, each untouched or finished. */
  ghost predicate Between(dir: Dir, cur: seq<Entry>, mode: Mode, g: Geometry) {
    && |cur| == |dir.entries|
    && forall k: nat | k < |cur| :: cur[k] == Before(dir, k, mode) || cur[k] == After(dir, k, mode, g)
  }

  lemma PassingBetween(dirs: map<Slot, Dir>, plan: map<Slot, Job>, d: Disk, s: Slot, mode: Mode, g: Geometry)
    requires Passing(dirs, plan, d, mode, g) && s in plan
    ensures s in dirs && s in d.dirs && SameLayout(dirs[s], d.dirs[s]) && JobFits(dirs[s], plan[s], dirs.Keys, mode, g)
    ensures ValidDir(dirs[s]) && ValidPlan(plan) && PassInv(plan, d) && mode != SanityCheck
    ensures Between(dirs[s], d.dirs[s].entries, mode, g)
    ensures plan[s].Sized() && plan[s].live == LiveCount(dirs[s].entries) && plan[s].after == AfterDir(dirs[s], mode, g)
    ensures forall k: nat | k < |dirs[s].entries| ::
      d.dirs[s].entries[k].block == plan[s].after[k].block < d.dirs[s].blocks
  {
    var dir, cur := dirs[s], d.dirs[s].entries;
    forall k: nat | k < |cur|
      ensures cur[k] == Before(dir, k, mode) || cur[k] == After(dir, k, mode, g)
    {
      assert RecordOk(plan, d, s, k);
    }
  }

  /** The record the walk stands at is live and is rewritten to its final number. */
  lemma RecordStep(dirs: map<Slot, Dir>, plan: map<Slot, Job>, d: Disk, s: Slot, k: nat, mode: Mode, g: Geometry)
    requires Passing(dirs, plan, d, mode, g) && s in plan && k < plan[s].live
    ensures k < |dirs[s].entries| && k < |d.dirs[s].entries| && k < |plan[s].after|
    ensures var e := d.dirs[s].entries[k];
      e.inum != 0 && Rewrite(e.inum, mode, g) == After(dirs[s], k, mode, g).inum
        && RecordFits(plan[s], dirs.Keys, k, e, mode, g)
  {
    PassingBetween(dirs, plan, d, s, mode, g);
    assert RecordOk(plan, d, s, k);
  }

  /** The buffer of the walk at record i: the records before i carry their final number. */
  ghost predicate Buffered(dir: Dir, cur: seq<Entry>, buf: seq<Entry>, i: nat, at: nat, mode: Mode, g: Geometry) {
    && |buf| == |cur| == |dir.entries| && i <= LiveCount(dir.entries)
    && at == ByteAt(cur, i)
    && forall k: nat | k < |buf| :: buf[k] == if k < i then cur[k].(inum := After(dir, k, mode, g).inum) else cur[k]
  }

  /** Every record but the last keeps its length through a pass; the last one gains the tail. */
  lemma RecordLengths(dir: Dir, cur: seq<Entry>, i: nat, mode: Mode, g: Geometry)
    requires ValidDir(dir) && Between(dir, cur, mode, g) && i <= |cur|
    ensures i < |cur| ==> ByteAt(cur, i) + 8 < dir.size
    ensures i == |cur| > 0 ==> ByteAt(cur, i) == ByteAt(dir.entries, i) - dir.entries[i - 1].recLen + cur[i - 1].recLen
  {
    var es, n := dir.entries, |cur|;
    if i < n {
      ByteAtSame(es, cur, i);
      ByteAtMonotone(es, i + 1, n);
    } else if n > 0 {
      ByteAtSame(es, cur, n - 1);
    }
  }

  /** Only the last record can still lack something at the end of the walk: the tail. */
  lemma BufferEnds(dir: Dir, cur: seq<Entry>, buf: seq<Entry>, at: nat, k: nat, mode: Mode, g: Geometry)
    requires ValidDir(dir) && Between(dir, cur, mode, g) && mode != SanityCheck
    requires Buffered(dir, cur, buf, LiveCount(dir.entries), at, mode, g) && k < |buf|
    ensures var tail := 0 < LiveCount(dir.entries) == |buf| && mode == UpdateNums && at < dir.size <= at + 8;
      After(dir, k, mode, g)
      == if tail && k == |buf| - 1 then buf[k].(recLen := buf[k].recLen + (dir.size - at)) else buf[k]
  {
    RecordLengths(dir, cur, LiveCount(dir.entries), mode, g);
  }

  lemma EndRecord(dir: Dir, cur: seq<Entry>, buf: seq<Entry>, at: nat, mode: Mode, g: Geometry)
    requires Between(dir, cur, mode, g) && Buffered(dir, cur, buf, LiveCount(dir.entries), at, mode, g)
    ensures |buf| == |dir.entries| == |cur| && at == ByteAt(cur, LiveCount(dir.entries))
    ensures LiveCount(dir.entries) < |buf| ==> buf[LiveCount(dir.entries)].inum == 0
  {
  }

  /** At the end of the walk the buffer, with the tail repaired, is the finished directory. */
  lemma WalkEnds(dir: Dir, cur: seq<Entry>, d: Disk, p: Power, buf: seq<Entry>, at: nat, mode: Mode, g: Geometry,
          stack: nat)
    requires ValidDir(dir) && Between(dir, cur, mode, g) && mode != SanityCheck
    requires Buffered(dir, cur, buf, LiveCount(dir.entries), at, mode, g)
    ensures Walk(d, p, buf, LiveCount(dir.entries), at, dir.size, mode, g, stack)
        == Walked(d, p, Ok, AfterDir(dir, mode, g))
  {
    hide After, ByteAt, Between, Buffered;
    var i := LiveCount(dir.entries);
    EndRecord(dir, cur, buf, at, mode, g);
    RecordLengths(dir, cur, i, mode, g);
    forall k: nat | k < |buf| { BufferEnds(dir, cur, buf, at, k, mode, g); }
    if 0 < i == |buf| && mode == UpdateNums && at < dir.size <= at + 8 {
      assert buf[i - 1 := buf[i - 1].(recLen := buf[i - 1].recLen + (dir.size - at))] == AfterDir(dir, mode, g);
    } else {
      assert buf == AfterDir(dir, mode, g);
    }
  }

  /** At a live record the walk enters it, rewrites it in the buffer and goes on. */
  lemma WalkSteps(dir: Dir, cur: seq<Entry>, d: Disk, p: Power, buf: seq<Entry>, i: nat, at: nat, mode: Mode,
          g: Geometry, stack: nat)
    returns (buf': seq<Entry>, at': nat)
    requires ValidDir(dir) && Between(dir, cur, mode, g)
    requires i < LiveCount(dir.entries) && Buffered(dir, cur, buf, i, at, mode, g)
    requires cur[i].inum != 0 && Rewrite(cur[i].inum, mode, g) == After(dir, i, mode, g).inum
    ensures buf[i] == cur[i] && |buf'| == |buf| && i < |buf|
    ensures Buffered(dir, cur, buf', i + 1, at', mode, g)
    ensures var r := Enter(d, p, buf[i], mode, g, stack);
      Walk(d, p, buf, i, at, dir.size, mode, g, stack) ==
        if r.status != Ok then Walked(r.disk, r.power, r.status, buf)
        else Walk(r.disk, r.power, buf', i + 1, at', dir.size, mode, g, stack)
  {
    RecordLengths(dir, cur, i, mode, g);
    buf' := buf[i := buf[i].(inum := Rewrite(buf[i].inum, mode, g))];
    at' := at + buf[i].recLen;
  }

  /** What a piece of a pass leaves behind: no error, the invariant, progress below height h only. */
  ghost predicate Kept(plan: map<Slot, Job>, d: Disk, p: Power, h: nat, d': Disk, p': Power, status: Status) {
    && status != Fatal
    && PassInv(plan, d')
    && Advanced(plan, d, d', h)
    && (p == Forever ==> p' == Forever && status == Ok)
  }

  lemma KeptTransitive(plan: map<Slot, Job>, d0: Disk, p0: Power, d1: Disk, p1: Power, d2: Disk, p2: Power,
          st: Status, h: nat)
    requires Kept(plan, d0, p0, h, d1, p1, Ok) && Kept(plan, d1, p1, h, d2, p2, st)
    ensures Kept(plan, d0, p0, h, d2, p2, st)
  {
  }

  lemma AdvancedPassing(dirs: map<Slot, Dir>, plan: map<Slot, Job>, d: Disk, d': Disk, mode: Mode, g: Geometry, h: nat)
    requires Passing(dirs, plan, d, mode, g) && Advanced(plan, d, d', h) && PassInv(plan, d')
    ensures Passing(dirs, plan, d', mode, g)
  {
  }

  lemma AdvancedWeaker(plan: map<Slot, Job>, d: Disk, d': Disk, h: nat)
    requires Advanced(plan, d, d', h)
    ensures Advanced(plan, d, d', h + 1)
  {
  }

  /** Nothing done: the records behind the live ones name no directory. */
  lemma KeptSelf(dirs: map<Slot, Dir>, plan: map<Slot, Job>, d: Disk, p: Power, s: Slot, mode: Mode, g: Geometry)
    requires Passing(dirs, plan, d, mode, g) && s in plan
    requires ChildrenDone(plan, d, s, plan[s].live)
    ensures Kept(plan, d, p, plan[s].height, d, p, Ok) && ChildrenDone(plan, d, s, |plan[s].after|)
  {
    PassingBetween(dirs, plan, d, s, mode, g);
    AdvancedSelf(plan, d, plan[s].height);
  }

  /** After record i was entered, the walk of s stands as before, with one more directory finished. */
  lemma KeptChildren(dirs: map<Slot, Dir>, plan: map<Slot, Job>, d: Disk, p: Power, d': Disk, p': Power, s: Slot,
          i: nat, mode: Mode, g: Geometry)
    requires Passing(dirs, plan, d, mode, g) && s in plan && i < |plan[s].child| && ChildrenDone(plan, d, s, i)
    requires Kept(plan, d, p, plan[s].height, d', p', Ok)
    requires plan[s].child[i].Some? ==> Done(plan, d', plan[s].child[i].value)
    ensures Passing(dirs, plan, d', mode, g) && s in d.dirs && s in d'.dirs && d'.dirs[s] == d.dirs[s]
    ensures ChildrenDone(plan, d', s, i + 1)
  {
    AdvancedPassing(dirs, plan, d, d', mode, g, plan[s].height);
    forall k | 0 <= k < i && plan[s].child[k].Some?
      ensures Done(plan, d', plan[s].child[k].value)
    {
      assert Done(plan, d, plan[s].child[k].value);
    }
  }

  lemma {:induction false} EnterKeeps(dirs: map<Slot, Dir>, plan: map<Slot, Job>, d: Disk, p: Power, s: Slot,
          k: nat, mode: Mode, g: Geometry, stack: nat)
    requires Passing(dirs, plan, d, mode, g) && s in plan && stack >= plan[s].height
    requires plan[s].Sized() && k < plan[s].live && k < |d.dirs[s].entries|
    ensures var r := Enter(d, p, d.dirs[s].entries[k], mode, g, stack);
      && Kept(plan, d, p, plan[s].height, r.disk, r.power, r.status)
      && (r.status == Ok && plan[s].child[k].Some? ==> Done(plan, r.disk, plan[s].child[k].value))
    decreases stack, 1
  {
    var e := d.dirs[s].entries[k];
    PassingBetween(dirs, plan, d, s, mode, g);
    assert RecordOk(plan, d, s, k);
    assert RecordFits(plan[s], d.dirs.Keys, k, e, mode, g);
    if Descends(d.dirs.Keys, e, mode, g) {
      var c := SlotOf(Unmark(e.inum), g.ipg);
      assert Some(c) in plan[s].child;
      RecurseKeeps(dirs, plan, d, p, c, mode, g, stack);
    }
  }

  lemma {:induction false} WalkKeeps(dirs: map<Slot, Dir>, plan: map<Slot, Job>, d: Disk, p: Power, s: Slot,
          buf: seq<Entry>,
                                     i: nat, at: nat, mode: Mode, g: Geometry, stack: nat)
    requires Passing(dirs, plan, d, mode, g) && s in plan && stack >= plan[s].height
    requires Buffered(dirs[s], d.dirs[s].entries, buf, i, at, mode, g)
    requires plan[s].Sized() && i <= plan[s].live && ChildrenDone(plan, d, s, i)
    ensures var w := Walk(d, p, buf, i, at, dirs[s].size, mode, g, stack);
      && Kept(plan, d, p, plan[s].height, w.disk, w.power, w.status)
      && (w.status == Ok ==> w.buf == plan[s].after && ChildrenDone(plan, w.disk, s, |w.buf|))
    decreases stack, |buf| - i + 2
  {
    hide PassInv, Advanced, Passing, ValidDir, JobFits, RecordFits, Between, Buffered, ValidPlan, Walk, Enter,
        SameFrame, SameLayout, Kept, ChildrenDone;
    PassingBetween(dirs, plan, d, s, mode, g);
    var dir, cur, job := dirs[s], d.dirs[s].entries, plan[s];
    if i == job.live {
      WalkEnds(dir, cur, d, p, buf, at, mode, g, stack);
      KeptSelf(dirs, plan, d, p, s, mode, g);
    } else {
      RecordStep(dirs, plan, d, s, i, mode, g);
      var buf', at' := WalkSteps(dir, cur, d, p, buf, i, at, mode, g, stack);
      EnterKeeps(dirs, plan, d, p, s, i, mode, g, stack);
      var r := Enter(d, p, buf[i], mode, g, stack);
      if r.status == Ok {
        KeptChildren(dirs, plan, d, p, r.disk, r.power, s, i, mode, g);
        WalkKeeps(dirs, plan, r.disk, r.power, s, buf', i + 1, at', mode, g, stack);
        var w := Walk(r.disk, r.power, buf', i + 1, at', dir.size, mode, g, stack);
        KeptTransitive(plan, d, p, r.disk, r.power, w.disk, w.power, w.status, job.height);
      }
    }
  }

  lemma RecurseUnfolds(d: Disk, p: Power, s: Slot, mode: Mode, g: Geometry, stack: nat)
    requires s in d.dirs && stack > 0 && mode != SanityCheck
    ensures var w := Walk(d, p, d.dirs[s].entries, 0, 0, d.dirs[s].size, mode, g, stack - 1);
      && SameFrame(d, w.disk) && s in w.disk.dirs && |w.buf| == |w.disk.dirs[s].entries|
      && RecurseDir(d, p, s, mode, g, stack)
         == if w.status != Ok then Result(w.disk, w.power, w.status) else WriteBlocks(w.disk, w.power, s, w.buf, 0)
  {
  }

  /** A pass over the directory s keeps the invariant wherever it is cut; completed, it has finished s. */
  lemma {:induction false} RecurseKeeps(dirs: map<Slot, Dir>, plan: map<Slot, Job>, d: Disk, p: Power, s: Slot,
          mode: Mode, g: Geometry, stack: nat)
    requires Passing(dirs, plan, d, mode, g) && s in plan && stack > plan[s].height
    ensures var r := RecurseDir(d, p, s, mode, g, stack);
      && Kept(plan, d, p, plan[s].height + 1, r.disk, r.power, r.status)
      && (r.status == Ok ==> Done(plan, r.disk, s))
    decreases stack, 0
  {
    hide PassInv, Advanced, Passing, ValidDir, JobFits, RecordFits, Between, ValidPlan, Walk, Enter, SameFrame,
        RecurseDir, WriteBlocks;
    PassingBetween(dirs, plan, d, s, mode, g);
    RecurseUnfolds(d, p, s, mode, g, stack);
    WalkKeeps(dirs, plan, d, p, s, d.dirs[s].entries, 0, 0, mode, g, stack - 1);
    var w := Walk(d, p, d.dirs[s].entries, 0, 0, d.dirs[s].size, mode, g, stack - 1);
    AdvancedWeaker(plan, d, w.disk, plan[s].height);
    if w.status == Ok {
      AdvancedPassing(dirs, plan, d, w.disk, mode, g, plan[s].height);
      PassingBetween(dirs, plan, w.disk, s, mode, g);
      assert Written(plan, w.disk, s, 0);
      WriteBlocksKeeps(plan, w.disk, w.power, s, 0);
      var r := WriteBlocks(w.disk, w.power, s, w.buf, 0);
      KeptTransitive(plan, d, p, w.disk, w.power, r.disk, r.power, r.status, plan[s].height + 1);
    }
  }
}
