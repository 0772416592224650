/** The main results about the renumbering tool: crash safety over any sequence of cut runs,
    preservation of every path, and when the file system is kept unmountable. */
module FixupTheorems {
  import opened Arith
  import opened Fixup
  import opened FixupPass
  import opened FixupRuns

  // ----- the renumbering keeps every inode in place and is the identity the second time

  /** Read with the new group size, the new number names the slot the old number named. */
  lemma NumberKeepsSlot(n: nat, g: Geometry)
    requires ValidInum(n, g) && g.ipg <= g.newIpg
    ensures SlotOf(NewInum(n, g), g.newIpg) == SlotOf(n, g.ipg)
  {
    NewInumExact(n, g);
    DivModUnique(g.newIpg, (n - 1) / g.ipg, (n - 1) % g.ipg);
  }

  /** Different numbers stay different. */
  lemma NumbersStayDistinct(m: nat, n: nat, g: Geometry)
    requires ValidInum(m, g) && ValidInum(n, g) && g.ipg <= g.newIpg
    ensures NewInum(m, g) == NewInum(n, g) ==> m == n
  {
    hide NewInum, SlotOf;
    NumberKeepsSlot(m, g);
    NumberKeepsSlot(n, g);
    if NewInum(m, g) == NewInum(n, g) { SlotDetermines(m, n, g.ipg); }
  }

  lemma SlotDetermines(m: nat, n: nat, ipg: pos)
    requires 1 <= m < HIGH_BIT && 1 <= n < HIGH_BIT && SlotOf(m, ipg) == SlotOf(n, ipg)
    ensures m == n
  {
    var x: nat, y: nat := m - 1, n - 1;
    assert U32(x) == x && U32(y) == y;
    DivModParts(x, ipg);
    DivModParts(y, ipg);
  }

  lemma NumberFixed(n: nat, a: pos)
    requires 1 <= n < HIGH_BIT
    ensures NewInum(n, Geometry(a, a)) == n && ValidInum(n, Geometry(a, a))
  {
    assert n - 1 == (n - 1) / a * a + (n - 1) % a;
  }

  lemma {:induction false} ByteAtAfter(dir: Dir, mode: Mode, g: Geometry, n: nat)
    requires n <= |dir.entries|
    ensures ByteAt(AfterDir(dir, mode, g), n) == ByteAt(dir.entries, n) +
      if mode == UpdateNums && 0 < n == |dir.entries| == LiveCount(dir.entries) then Tail(dir) else 0
  {
    if n > 0 { ByteAtAfter(dir, mode, g, n - 1); }
  }

  /** The renumbered directory: same live records, valid, and with no tail left to repair. */
  lemma RenumberedDir(dir: Dir, dir': Dir, g: Geometry)
    requires ValidDir(dir) && SameLayout(dir, dir') && dir'.entries == AfterDir(dir, UpdateNums, g)
    requires forall k: nat | k < LiveCount(dir.entries) :: ValidInum(dir.entries[k].inum, g)
    ensures LiveCount(dir'.entries) == LiveCount(dir.entries) && ValidDir(dir') && Tail(dir') == 0
  {
    var n := |dir.entries|;
    forall k | 0 <= k < n
      ensures (dir.entries[k].inum == 0) == (dir'.entries[k].inum == 0) || k > LiveCount(dir.entries)
    {
      if k < LiveCount(dir.entries) { NewInumExact(dir.entries[k].inum, g); }
    }
    LiveCountSame(dir.entries, dir'.entries);
    ByteAtAfter(dir, UpdateNums, g, n);
  }

  lemma LiveCountSame(xs: seq<Entry>, ys: seq<Entry>)
    requires |xs| == |ys|
    requires forall k :: 0 <= k < |xs| && k <= LiveCount(xs) ==> (xs[k].inum == 0) == (ys[k].inum == 0)
    ensures LiveCount(xs) == LiveCount(ys)
  {
    LivePrefix(xs, ys, 0);
  }

  lemma {:induction false} LivePrefix(xs: seq<Entry>, ys: seq<Entry>, i: nat)
    requires i <= |xs| == |ys| && i <= LiveFrom(xs, i)
    requires forall k :: i <= k < |xs| && k <= LiveFrom(xs, i) ==> (xs[k].inum == 0) == (ys[k].inum == 0)
    ensures LiveFrom(xs, i) == LiveFrom(ys, i)
    decreases |xs| - i
  {
    if i < |xs| && xs[i].inum != 0 { LivePrefix(xs, ys, i + 1); }
  }

  // ----- the renewed disk is again a consistent image

  lemma RenewedGeometry(img: Disk, t: Tree, d: Disk)
    requires |img.sbs| > 0 && Renewed(img, t, d)
    ensures |d.sbs| > 0 && d.sbs[0].ipg == NewIpg(img) && img.sbs[0].ipg <= NewIpg(img)
    ensures GeometryOf(d) == Geometry(NewIpg(img), NewIpg(img))
    ensures d.dirs.Keys == img.dirs.Keys
  {
    AlignBounds(img.sbs[0].ipg, img.inodesPerBlock);
  }

  /** The new group size fills whole inode blocks, and is the least such size not below the old one. */
  lemma NewIpgIsLeast(img: Disk, m: nat)
    requires |img.sbs| > 0
    ensures NewIpg(img) % img.inodesPerBlock == 0
    ensures img.sbs[0].ipg <= NewIpg(img) < img.sbs[0].ipg + img.inodesPerBlock
    ensures m >= img.sbs[0].ipg && m % img.inodesPerBlock == 0 ==> NewIpg(img) <= m
  {
    AlignBounds(img.sbs[0].ipg, img.inodesPerBlock);
    if m >= img.sbs[0].ipg && m % img.inodesPerBlock == 0 { AlignLeast(img.sbs[0].ipg, img.inodesPerBlock, m); }
  }

  lemma RenewedDir(img: Disk, t: Tree, d: Disk, s: Slot)
    requires WellFormed(img, t) && Renewed(img, t, d) && s in t.height
    ensures s in img.dirs && s in d.dirs && ValidDir(d.dirs[s]) && SameLayout(img.dirs[s], d.dirs[s])
    ensures d.dirs[s].entries == AfterDir(img.dirs[s], UpdateNums, GeometryOf(img))
    ensures LiveCount(d.dirs[s].entries) == LiveCount(img.dirs[s].entries) && Tail(d.dirs[s]) == 0
  {
    forall k: nat | k < LiveCount(img.dirs[s].entries)
      ensures ValidInum(img.dirs[s].entries[k].inum, GeometryOf(img))
    {
      assert ValidRecord(img, t, s, k);
    }
    RenumberedDir(img.dirs[s], d.dirs[s], GeometryOf(img));
  }

  lemma RenewedRecord(img: Disk, t: Tree, d: Disk, s: Slot, k: nat)
    requires WellFormed(img, t) && Renewed(img, t, d) && s in t.height && k < |img.dirs[s].entries|
    ensures |d.sbs| > 0 && s in d.dirs && k < |d.dirs[s].entries|
    ensures k < LiveCount(img.dirs[s].entries) ==> SlotAt(d, s, k) == SlotAt(img, s, k)
    ensures Subdir(d, s, k) == Subdir(img, s, k) && ValidRecord(d, t, s, k)
    ensures After(d.dirs[s], k, UpdateNums, GeometryOf(d)) == d.dirs[s].entries[k]
  {
    hide Renewed, WellFormed, NewInum, SlotOf, Tail, ValidDir;
    TreeSlot(img, t, s);
    RenewedGeometry(img, t, d);
    RenewedDir(img, t, d, s);
    if k < LiveCount(img.dirs[s].entries) {
      var n, g := img.dirs[s].entries[k].inum, GeometryOf(img);
      RecordIsValid(img, t, s, k);
      RecordNumber(img, t, s, k);
      NumberKeepsSlot(n, g);
      NumberFixed(NewInum(n, g), g.newIpg);
    }
  }

  lemma RecordNumber(img: Disk, t: Tree, s: Slot, k: nat)
    requires WellFormed(img, t) && s in t.height && k < LiveCount(img.dirs[s].entries)
    ensures ValidInum(img.dirs[s].entries[k].inum, GeometryOf(img))
  {
    assert ValidRecord(img, t, s, k);
  }

  lemma RenewedWellFormed(img: Disk, t: Tree, d: Disk)
    requires WellFormed(img, t) && Renewed(img, t, d)
    ensures WellFormed(d, t)
    ensures forall s <- t.height :: s in d.dirs && AfterDir(d.dirs[s], UpdateNums, GeometryOf(d)) == d.dirs[s].entries
  {
    hide Renewed;
    RenewedGeometry(img, t, d);
    forall s <- t.height
      ensures s in d.dirs && ValidDir(d.dirs[s]) && AfterDir(d.dirs[s], UpdateNums, GeometryOf(d)) == d.dirs[s].entries
    {
      RenewedDir(img, t, d, s);
      forall k: nat | k < |img.dirs[s].entries| { RenewedRecord(img, t, d, s, k); }
    }
    forall s <- t.height, k: nat | k < |d.dirs[s].entries|
      ensures ValidRecord(d, t, s, k)
    {
      RenewedDir(img, t, d, s);
      RenewedRecord(img, t, d, s, k);
    }
    forall s <- t.height | s != ROOT
      ensures HasParent(d, t, s)
    {
      assert HasParent(img, t, s);
      RenewedRecord(img, t, d, t.parent[s].0, t.parent[s].1);
    }
  }

  /** Renumbering a renewed disk renews it to itself. */
  lemma RenewedTwice(img: Disk, t: Tree, d: Disk, d': Disk)
    requires WellFormed(img, t) && Renewed(img, t, d) && Renewed(d, t, d')
    ensures d'.dirs == d.dirs && Renewed(img, t, d')
  {
    hide WellFormed;
    RenewedGeometry(img, t, d);
    RenewedWellFormed(img, t, d);
    forall s <- img.dirs
      ensures d'.dirs[s] == d.dirs[s]
    {
    }
  }

  // ----- crash safety

  /** The disk a stretch of runs started from: the image, or the image already renewed. */
  ghost predicate Base(img: Disk, t: Tree, base: Disk) {
    base == img || Renewed(img, t, base)
  }

  lemma BaseWellFormed(img: Disk, t: Tree, base: Disk)
    requires WellFormed(img, t) && Base(img, t, base)
    ensures WellFormed(base, t)
  {
    if base != img { RenewedWellFormed(img, t, base); }
  }

  lemma RenewedFromBase(img: Disk, t: Tree, base: Disk, d: Disk)
    requires WellFormed(img, t) && Base(img, t, base) && Renewed(base, t, d)
    ensures Renewed(img, t, d)
  {
    if base != img { RenewedTwice(img, t, base, d); }
  }

  /** One run, cut anywhere, leads from a stage to a stage. */
  lemma RunKeepsStage(img: Disk, t: Tree, base: Disk, d: Disk, p: Power, stack: nat) returns (base': Disk)
    requires WellFormed(img, t) && Base(img, t, base) && Stage(base, t, d)
    requires ROOT in t.height && stack > t.height[ROOT]
    ensures |d.sbs| > 0
    ensures var r := Run(d, p, stack);
      && Base(img, t, base') && Stage(base', t, r.disk)
      && r.status != Fatal
      && (r.status == Ok ==> Completed(img, t, r.disk))
      && (p == Forever ==> r.status == Ok)
  {
    hide WellFormed, Run, AllDone;
    RunFromStage(base, t, d, p, stack);
    var r := Run(d, p, stack);
    if Renewed(base, t, r.disk) {
      RenewedFromBase(img, t, base, r.disk);
      BaseWellFormed(img, t, r.disk);
      base' := r.disk;
    } else {
      base' := base;
    }
  }

  /** After any sequence of runs, each cut anywhere, the disk is in a stage. */
  lemma {:induction false} RunsKeepStage(img: Disk, t: Tree, base: Disk, d: Disk, powers: seq<Power>, stack: nat)
      returns (base': Disk)
    requires WellFormed(img, t) && Base(img, t, base) && Stage(base, t, d)
    requires ROOT in t.height && stack > t.height[ROOT]
    ensures |d.sbs| > 0
    ensures Base(img, t, base') && Stage(base', t, RunMany(d, powers, stack))
    decreases |powers|
  {
    hide WellFormed, Run, Stage, Base;
    if powers == [] {
      StageGeometry(base, t, d);
      base' := base;
    } else {
      var next := RunKeepsStage(img, t, base, d, powers[0], stack);
      base' := RunsKeepStage(img, t, next, Run(d, powers[0], stack).disk, powers[1..], stack);
    }
  }

  lemma ImageIsStage(img: Disk, t: Tree)
    requires WellFormed(img, t) && img.phase == Unset
    ensures ROOT in t.height && |img.sbs| > 0 && Base(img, t, img) && Stage(img, t, img)
  {
  }

  /** Whatever runs were cut before, wherever they were cut, a run never fails, one that is not
      cut completes, and when a run completes every record was renumbered exactly once. */
  lemma CrashSafe(img: Disk, t: Tree, powers: seq<Power>, p: Power, stack: nat)
    requires WellFormed(img, t) && img.phase == Unset && stack > t.height[ROOT]
    ensures var r := Run(RunMany(img, powers, stack), p, stack);
      && r.status != Fatal
      && (r.status == Ok ==> Completed(img, t, r.disk))
      && (p == Forever ==> r.status == Ok)
  {
    ImageIsStage(img, t);
    var base := RunsKeepStage(img, t, img, img, powers, stack);
    var last := RunKeepsStage(img, t, base, RunMany(img, powers, stack), p, stack);
  }

  /** What a completed run leaves in every superblock: the least number of inodes per group that
      fills whole inode blocks and is not below the old one. */
  lemma CompletedSizes(img: Disk, t: Tree, d: Disk, i: nat, m: nat)
    requires |img.sbs| > 0 && Completed(img, t, d) && i < |img.sbs|
    ensures |d.sbs| == |img.sbs| && d.sbs[i].ipg % img.inodesPerBlock == 0
    ensures img.sbs[0].ipg <= d.sbs[i].ipg < img.sbs[0].ipg + img.inodesPerBlock
    ensures m >= img.sbs[0].ipg && m % img.inodesPerBlock == 0 ==> d.sbs[i].ipg <= m
  {
    hide AllDone, NewIpg;
    NewIpgIsLeast(img, m);
  }

  /** Running the tool on a completed disk changes no directory. */
  lemma CompletedIsFixed(img: Disk, t: Tree, d: Disk, stack: nat)
    requires WellFormed(img, t) && Completed(img, t, d) && stack > t.height[ROOT]
    ensures |d.sbs| > 0
    ensures var r := Run(d, Forever, stack);
      r.status == Ok && r.disk.dirs == d.dirs && Completed(img, t, r.disk)
  {
    hide Run;
    RenewedGeometry(img, t, d);
    RenewedWellFormed(img, t, d);
    ImageIsStage(d, t);
    RunFromStage(d, t, d, Forever, stack);
    RenewedTwice(img, t, d, Run(d, Forever, stack).disk);
    RenewedGeometry(d, t, Run(d, Forever, stack).disk);
  }

  /** What a cut leaves in one record: its number before, marked, or after, as the phase allows;
      in the updating phase an unmarked record that names a directory has a renumbered directory below it. */
  lemma RecordAtCut(base: Disk, t: Tree, d: Disk, s: Slot, k: nat)
    requires Stage(base, t, d) && s in t.height && s in base.dirs && k < LiveCount(base.dirs[s].entries)
    ensures |base.sbs| > 0 && s in d.dirs && |d.dirs[s].entries| == |base.dirs[s].entries|
    ensures var n, m, g := base.dirs[s].entries[k].inum, d.dirs[s].entries[k].inum, GeometryOf(base);
      match d.phase
      case Unset => m == n
      case MarkingInums => m in {n, n + HIGH_BIT}
      case UpdatingInums => m in {n + HIGH_BIT, NewInum(n, g)}
      case UpdatingSb => m == NewInum(n, g)
    ensures d.phase == UpdatingInums && !Marked(d.dirs[s].entries[k].inum) && Subdir(base, s, k) ==>
      var c := SlotAt(base, s, k);
      c in t.height && c in d.dirs && d.dirs[c].entries == AfterDir(base.dirs[c], UpdateNums, GeometryOf(base))
  {
    hide WellFormed, InPass;
    RecordIsValid(base, t, s, k);
    TreeSlot(base, t, s);
    if d.phase == MarkingInums {
      RecordInPass(base, t, d, s, k, MarkNums);
    } else if d.phase == UpdatingInums {
      RecordInPass(base, t, d, s, k, UpdateNums);
    }
  }

  lemma RecordInPass(base: Disk, t: Tree, d: Disk, s: Slot, k: nat, mode: Mode)
    requires InPass(base, t, d, mode) && s in t.height && s in base.dirs && k < LiveCount(base.dirs[s].entries)
    ensures s in d.dirs && |d.dirs[s].entries| == |base.dirs[s].entries|
    ensures var dir, e := base.dirs[s], d.dirs[s].entries[k];
      && (e == Before(dir, k, mode) || e == After(dir, k, mode, GeometryOf(base)))
      && (e == After(dir, k, mode, GeometryOf(base)) && Subdir(base, s, k) ==>
            var c := SlotAt(base, s, k);
            c in t.height && c in d.dirs && c in base.dirs
              && d.dirs[c].entries == AfterDir(base.dirs[c], mode, GeometryOf(base)))
  {
    hide WellFormed, JobFits, Tail, NewInum, SlotOf;
    TreeSlot(base, t, s);
    RecordIsValid(base, t, s, k);
    TreeInPlan(base, t, mode);
    assert RecordOk(PlanOf(base, t, mode), d, s, k);
  }

  /** The records ks, one after the other, lead from directory s down to directory c. */
  ghost predicate LeadsTo(base: Disk, s: Slot, ks: seq<nat>, c: Slot)
    requires |base.sbs| > 0
    decreases |ks|
  {
    if ks == [] then s == c
    else s in base.dirs && Subdir(base, s, ks[0]) && LeadsTo(base, SlotAt(base, s, ks[0]), ks[1..], c)
  }

  /** Directory c holds what the updating pass leaves in it. */
  ghost predicate Finished(base: Disk, d: Disk, c: Slot)
    requires |base.sbs| > 0
  {
    c in base.dirs && c in d.dirs && d.dirs[c].entries == AfterDir(base.dirs[c], UpdateNums, GeometryOf(base))
  }

  /** Below a finished directory every directory is finished, at any depth. */
  lemma {:induction false} FinishedDownwards(base: Disk, t: Tree, d: Disk, s: Slot, ks: seq<nat>, c: Slot)
    requires Stage(base, t, d) && d.phase == UpdatingInums && s in t.height
    requires |base.sbs| > 0 && Finished(base, d, s) && LeadsTo(base, s, ks, c)
    ensures Finished(base, d, c)
    decreases |ks|
  {
    if ks != [] {
      hide Stage, Finished, Subdir, SlotAt;
      FinishedChild(base, t, d, s, ks[0]);
      FinishedDownwards(base, t, d, SlotAt(base, s, ks[0]), ks[1..], c);
    }
  }

  lemma FinishedChild(base: Disk, t: Tree, d: Disk, s: Slot, k: nat)
    requires Stage(base, t, d) && d.phase == UpdatingInums && s in t.height
    requires |base.sbs| > 0 && s in base.dirs && Subdir(base, s, k) && Finished(base, d, s)
    ensures SlotAt(base, s, k) in t.height && Finished(base, d, SlotAt(base, s, k))
  {
    FinishedIsUnmarked(base, t, d, s, k);
    UnmarkedChild(base, t, d, s, k);
  }

  lemma FinishedIsUnmarked(base: Disk, t: Tree, d: Disk, s: Slot, k: nat)
    requires WellFormed(base, t) && s in t.height && s in base.dirs && k < LiveCount(base.dirs[s].entries)
    requires |base.sbs| > 0 && Finished(base, d, s)
    ensures |d.dirs[s].entries| == |base.dirs[s].entries| && !Marked(d.dirs[s].entries[k].inum)
  {
    hide WellFormed, Tail, NewInum;
    RecordIsValid(base, t, s, k);
  }

  lemma UnmarkedChild(base: Disk, t: Tree, d: Disk, s: Slot, k: nat)
    requires Stage(base, t, d) && d.phase == UpdatingInums && s in t.height && s in base.dirs
    requires |base.sbs| > 0 && Subdir(base, s, k)
    requires s in d.dirs && |d.dirs[s].entries| == |base.dirs[s].entries| && !Marked(d.dirs[s].entries[k].inum)
    ensures SlotAt(base, s, k) in t.height && Finished(base, d, SlotAt(base, s, k))
  {
    hide WellFormed, InPass, AfterDir, NewInum;
    RecordAtCut(base, t, d, s, k);
    RecordIsValid(base, t, s, k);
  }

  /** In the updating phase an unmarked record that names a directory has its whole subtree renumbered: every
      directory below it, at any depth, is finished. */
  lemma UnmarkedMeansSubtreeDone(base: Disk, t: Tree, d: Disk, s: Slot, k: nat, ks: seq<nat>, c: Slot)
    requires Stage(base, t, d) && d.phase == UpdatingInums && s in t.height && s in base.dirs
    requires |base.sbs| > 0 && Subdir(base, s, k)
    requires s in d.dirs && |d.dirs[s].entries| == |base.dirs[s].entries| && !Marked(d.dirs[s].entries[k].inum)
    requires LeadsTo(base, SlotAt(base, s, k), ks, c)
    ensures Finished(base, d, c)
  {
    hide Stage, Finished, SlotAt, LeadsTo;
    UnmarkedChild(base, t, d, s, k);
    FinishedDownwards(base, t, d, SlotAt(base, s, k), ks, c);
  }

  /** After completion a record has its new number exactly when the walk reached it, that is when it lies before the
      first record with a zero inode number; the others keep the number they had, whatever it means by now. */
  lemma RenumberedExactly(img: Disk, t: Tree, d: Disk, s: Slot, k: nat)
    requires WellFormed(img, t) && Completed(img, t, d) && s in t.height && s in img.dirs && k < |img.dirs[s].entries|
    ensures |img.sbs| > 0 && s in d.dirs && k < |d.dirs[s].entries|
    ensures var n, m, g := img.dirs[s].entries[k].inum, d.dirs[s].entries[k].inum, GeometryOf(img);
      && (m == NewInum(n, g) <==> k < LiveCount(img.dirs[s].entries) || NewInum(n, g) == n)
      && (k >= LiveCount(img.dirs[s].entries) ==> m == n)
  {
    hide WellFormed, Tail, NewInum;
    TreeSlot(img, t, s);
    if k < LiveCount(img.dirs[s].entries) { RecordIsValid(img, t, s, k); }
  }

  // ----- paths

  /** The first live record with the given name, counting from record i. */
  ghost function FindName(es: seq<Entry>, name: string, i: nat): (k: nat)
    requires i <= |es|
    ensures i <= k <= |es|
    decreases |es| - i
  {
    if i < |es| && es[i].inum != 0 && es[i].name != name then FindName(es, name, i + 1) else i
  }

  /** The inode a path leads to from directory s, reading numbers with the primary superblock's group size. */
  ghost function Resolve(d: Disk, s: Slot, path: seq<string>): Option<Slot>
    requires |d.sbs| > 0
    decreases |path|
  {
    if path == [] then Some(s)
    else if s !in d.dirs then None
    else
      var es := d.dirs[s].entries;
      var k := FindName(es, path[0], 0);
      if k == |es| || es[k].inum == 0 then None
      else Resolve(d, SlotOf(es[k].inum, d.sbs[0].ipg), path[1..])
  }

  lemma {:induction false} FindNameSame(xs: seq<Entry>, ys: seq<Entry>, name: string, i: nat)
    requires i <= |xs| == |ys| && LiveFrom(xs, i) == LiveFrom(ys, i)
    requires forall k :: i <= k < LiveFrom(xs, i) ==> xs[k].name == ys[k].name
    ensures FindName(xs, name, i) == FindName(ys, name, i) <= LiveFrom(xs, i)
    decreases |xs| - i
  {
    if i < LiveFrom(xs, i) && xs[i].name != name { FindNameSame(xs, ys, name, i + 1); }
  }

  /** After the renumbering every path of live records leads to the inode it led to before. */
  lemma {:induction false} PathsPreserved(img: Disk, t: Tree, d: Disk, s: Slot, path: seq<string>)
    requires WellFormed(img, t) && Renewed(img, t, d) && s in t.height
    ensures |d.sbs| > 0 && Resolve(d, s, path) == Resolve(img, s, path)
    decreases |path|
  {
    hide WellFormed, Renewed, SlotOf, NewInum, Tail, ValidDir;
    TreeSlot(img, t, s);
    RenewedGeometry(img, t, d);
    if path != [] {
      RenewedDir(img, t, d, s);
      var es, es' := img.dirs[s].entries, d.dirs[s].entries;
      FindNameSame(es, es', path[0], 0);
      var k := FindName(es, path[0], 0);
      if k < LiveCount(es) {
        RecordIsValid(img, t, s, k);
        RenewedRecord(img, t, d, s, k);
        if SlotAt(img, s, k) in img.dirs {
          PathsPreserved(img, t, d, SlotAt(img, s, k), path[1..]);
        }
      }
    }
  }

  // ----- a lookup that passes over records with a zero inode number

  /** The first record from i on that has the name and an inode number. */
  ghost function FindAny(es: seq<Entry>, name: string, i: nat): (k: nat)
    requires i <= |es|
    ensures i <= k <= |es|
    ensures k < |es| ==> es[k].inum != 0 && es[k].name == name
    decreases |es| - i
  {
    if i < |es| && (es[i].inum == 0 || es[i].name != name) then FindAny(es, name, i + 1) else i
  }

  ghost function Lookup(d: Disk, s: Slot, name: string): Option<Slot>
    requires |d.sbs| > 0 && s in d.dirs
  {
    var es := d.dirs[s].entries;
    var k := FindAny(es, name, 0);
    if k == |es| then None else Some(SlotOf(es[k].inum, d.sbs[0].ipg))
  }

  lemma {:induction false} FindAnySame(xs: seq<Entry>, ys: seq<Entry>, name: string, i: nat)
    requires i <= |xs| == |ys|
    requires forall k :: 0 <= k < |xs| ==> xs[k].name == ys[k].name && (xs[k].inum == 0 <==> ys[k].inum == 0)
    ensures FindAny(xs, name, i) == FindAny(ys, name, i)
    decreases |xs| - i
  {
    if i < |xs| { FindAnySame(xs, ys, name, i + 1); }
  }

  /** Two group sizes and a quotient above 0 give two numbers. */
  lemma SizesDiffer(q: nat, a: nat, b: nat)
    requires q >= 1 && a < b
    ensures q * a < q * b
  {
    var c: nat := b - a;
    MulMonotone(1, q, c);
    assert q * b == q * a + q * c;
  }

  lemma SameGroupDiffers(m: nat, a: pos, b: pos)
    requires a < b && a <= m
    ensures m / a != m / b || m % a != m % b
  {
    var q: nat, q': nat := m / a, m / b;
    DivModParts(m, a);
    DivModParts(m, b);
    DivMonotone(a, m, a);
    DivModUnique(a, 1, 0);
    SizesDiffer(q, a, b);
    if q == q' { assert q * a != q' * b; }
  }

  /** Under a larger group size a number keeps its slot only in the first group. */
  lemma SlotKept(n: nat, ipg: pos, newIpg: pos)
    requires ipg <= newIpg
    ensures SlotOf(n, newIpg) == SlotOf(n, ipg) <==> U32(n - 1) < ipg || newIpg == ipg
  {
    var m := U32(n - 1);
    if m < ipg {
      DivModUnique(ipg, 0, m);
      DivModUnique(newIpg, 0, m);
    } else if ipg < newIpg {
      SameGroupDiffers(m, ipg, newIpg);
    }
  }

  lemma RecordAfter(img: Disk, t: Tree, d: Disk, s: Slot, k: nat)
    requires WellFormed(img, t) && Renewed(img, t, d) && s in t.height && s in img.dirs && k < |img.dirs[s].entries|
    ensures |img.sbs| > 0 && s in d.dirs && k < |d.dirs[s].entries|
    ensures var e, e' := img.dirs[s].entries[k], d.dirs[s].entries[k];
      && e'.name == e.name && (e'.inum == 0 <==> e.inum == 0)
      && (k >= LiveCount(img.dirs[s].entries) ==> e'.inum == e.inum)
  {
    hide WellFormed, Renewed, NewInum, Tail, ValidDir;
    TreeSlot(img, t, s);
    RenewedDir(img, t, d, s);
    if k < LiveCount(img.dirs[s].entries) { RecordIsValid(img, t, s, k); }
  }

  /** Looked up by all its records, a name in a directory of the tree leads to the inode it led to before exactly when
      there is none, or the record is one that the walk reaches, or its number names an inode of the first group, or
      the group size stays. */
  lemma LookupExactly(img: Disk, t: Tree, d: Disk, s: Slot, name: string)
    requires WellFormed(img, t) && Renewed(img, t, d) && s in t.height
    ensures |img.sbs| > 0 && |d.sbs| > 0 && s in img.dirs && s in d.dirs
    ensures var es, ipg := img.dirs[s].entries, img.sbs[0].ipg;
      var k := FindAny(es, name, 0);
      Lookup(d, s, name) == Lookup(img, s, name) <==>
        k == |es| || k < LiveCount(es) || U32(es[k].inum - 1) < ipg || NewIpg(img) == ipg
  {
    hide WellFormed, Renewed, NewInum, NewIpg, Tail, ValidDir, SlotOf;
    TreeSlot(img, t, s);
    RenewedGeometry(img, t, d);
    RenewedDir(img, t, d, s);
    var es, es' := img.dirs[s].entries, d.dirs[s].entries;
    forall k: nat | k < |es|
      ensures es[k].name == es'[k].name && (es[k].inum == 0 <==> es'[k].inum == 0)
    {
      RecordAfter(img, t, d, s, k);
    }
    FindAnySame(es, es', name, 0);
    var k := FindAny(es, name, 0);
    if k < |es| {
      RecordAfter(img, t, d, s, k);
      if k < LiveCount(es) {
        RenewedRecord(img, t, d, s, k);
      } else {
        SlotKept(es[k].inum, img.sbs[0].ipg, NewIpg(img));
      }
    }
  }
}
