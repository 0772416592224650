/** Whole runs of the renumbering tool, cut after any write and started again. */
module FixupRuns {
  import opened Arith
  import opened Fixup
  import opened FixupPass

  /** The directories outside the tree are as in the image. */
  ghost predicate Untouched(img: Disk, t: Tree, d: Disk) {
    && d.dirs.Keys == img.dirs.Keys
    && (forall s <- img.dirs :: SameLayout(img.dirs[s], d.dirs[s]))
    && (forall s <- img.dirs | s !in t.height :: d.dirs[s] == img.dirs[s])
  }

  /** Every directory of the tree is what the pass makes of it. */
  ghost predicate AllDone(img: Disk, t: Tree, d: Disk, mode: Mode) {
    && |img.sbs| > 0
    && Untouched(img, t, d)
    && (forall s <- t.height | s in img.dirs :: d.dirs[s].entries == AfterDir(img.dirs[s], mode, GeometryOf(img)))
  }

  ghost predicate InPass(img: Disk, t: Tree, d: Disk, mode: Mode) {
    && WellFormed(img, t) && Untouched(img, t, d)
    && Passing(img.dirs, PlanOf(img, t, mode), d, mode, GeometryOf(img))
  }

  /** The invariant of a renumbering that started from the image, after any write. */
  ghost predicate Stage(img: Disk, t: Tree, d: Disk) {
    && WellFormed(img, t)
    && |d.sbs| == |img.sbs| && d.inodesPerBlock == img.inodesPerBlock
    && (d.phase != UpdatingSb ==> d.sbs[0].ipg == img.sbs[0].ipg)
    && match d.phase
       case Unset => d.dirs == img.dirs
       case MarkingInums => InPass(img, t, d, MarkNums)
       case UpdatingInums => InPass(img, t, d, UpdateNums)
       case UpdatingSb => AllDone(img, t, d, UpdateNums) && d.sbs[0].ipg in {img.sbs[0].ipg, NewIpg(img)}
  }

  /** Renumbered from the image, with every superblock up to date, and no phase recorded. */
  ghost predicate Renewed(img: Disk, t: Tree, d: Disk) {
    && AllDone(img, t, d, UpdateNums)
    && d.phase == Unset && |d.sbs| == |img.sbs| && d.inodesPerBlock == img.inodesPerBlock
    && forall i :: 0 <= i < |d.sbs| ==> d.sbs[i].ipg == NewIpg(img)
  }

  /** Renewed and mountable again. */
  ghost predicate Completed(img: Disk, t: Tree, d: Disk) {
    Renewed(img, t, d) && forall i :: 0 <= i < |d.sbs| ==> !d.sbs[i].locked
  }

  // ----- a completed pass has finished every directory, and the next one can start

  /** The root is finished last, so when it is finished everything is. */
  lemma {:induction false} RootLast(img: Disk, t: Tree, d: Disk, mode: Mode, s: Slot)
    requires WellFormed(img, t) && PassInv(PlanOf(img, t, mode), d) && Done(PlanOf(img, t, mode), d, ROOT)
    requires s in t.height
    ensures Done(PlanOf(img, t, mode), d, s)
    decreases t.height[ROOT] - t.height[s]
  {
    if s != ROOT {
      assert HasParent(img, t, s);
      var (q, k) := t.parent[s];
      RecordIsValid(img, t, q, k);
      RootLast(img, t, d, mode, q);
      assert RecordOk(PlanOf(img, t, mode), d, q, k);
    }
  }

  lemma PassDone(img: Disk, t: Tree, d: Disk, mode: Mode)
    requires InPass(img, t, d, mode) && Done(PlanOf(img, t, mode), d, ROOT)
    ensures AllDone(img, t, d, mode)
  {
    forall s <- t.height | s in img.dirs
      ensures d.dirs[s].entries == AfterDir(img.dirs[s], mode, GeometryOf(img))
    {
      RootLast(img, t, d, mode, s);
    }
  }

  lemma PlanFits(img: Disk, t: Tree, mode: Mode)
    requires WellFormed(img, t) && mode != SanityCheck
    ensures forall s <- PlanOf(img, t, mode) ::
      s in img.dirs && JobFits(img.dirs[s], PlanOf(img, t, mode)[s], img.dirs.Keys, mode, GeometryOf(img))
  {
    hide JobFits;
    forall s <- PlanOf(img, t, mode)
      ensures s in img.dirs && JobFits(img.dirs[s], PlanOf(img, t, mode)[s], img.dirs.Keys, mode, GeometryOf(img))
    {
      JobOfFits(img, t, s, mode);
    }
  }

  /** A disk whose directories all hold what a pass starts from is inside that pass. */
  lemma PassStarts(img: Disk, t: Tree, d: Disk, mode: Mode)
    requires WellFormed(img, t) && Untouched(img, t, d) && mode != SanityCheck
    requires forall s <- t.height :: s in img.dirs && d.dirs[s].entries == BeforeDir(img.dirs[s], mode)
    ensures InPass(img, t, d, mode)
  {
    hide JobFits, RecordOk, ValidPlan, PlanOf, WellFormed, BeforeDir;
    var plan := PlanOf(img, t, mode);
    PlanIsValid(img, t, mode);
    PlanFits(img, t, mode);
    PlanSlots(img, t, mode);
    forall s <- plan, k: nat | k < |plan[s].after|
      ensures RecordOk(plan, d, s, k)
    {
      RecordStarts(img, t, d, s, k, mode);
    }
  }

  lemma PlanSlots(img: Disk, t: Tree, mode: Mode)
    requires WellFormed(img, t)
    ensures t.height.Keys <= img.dirs.Keys
    ensures forall s <- PlanOf(img, t, mode) :: s in t.height
    ensures forall s <- t.height :: s in PlanOf(img, t, mode) && PlanOf(img, t, mode)[s].Sized()
                                 && |PlanOf(img, t, mode)[s].after| == |img.dirs[s].entries|
  {
  }

  lemma RecordStarts(img: Disk, t: Tree, d: Disk, s: Slot, k: nat, mode: Mode)
    requires WellFormed(img, t) && mode != SanityCheck && s in t.height && s in d.dirs && k < |img.dirs[s].entries|
    requires d.dirs[s].entries == BeforeDir(img.dirs[s], mode)
    ensures PlanOf(img, t, mode)[s].Sized() && RecordOk(PlanOf(img, t, mode), d, s, k)
  {
    BeforeIsNotAfter(img, t, s, k, mode);
  }

  /** A record that names a directory looks different before and after a pass. */
  lemma BeforeIsNotAfter(img: Disk, t: Tree, s: Slot, k: nat, mode: Mode)
    requires WellFormed(img, t) && s in t.height && mode != SanityCheck && k < |img.dirs[s].entries|
    ensures JobOf(img, t, s, mode).child[k].Some? ==>
        JobOf(img, t, s, mode).before[k] != JobOf(img, t, s, mode).after[k]
  {
    if Subdir(img, s, k) { RecordIsValid(img, t, s, k); }
  }

  lemma MarkedStartsUpdate(img: Disk, t: Tree, d: Disk)
    requires WellFormed(img, t) && AllDone(img, t, d, MarkNums)
    ensures InPass(img, t, d, UpdateNums)
  {
    forall s <- t.height
      ensures s in img.dirs && AfterDir(img.dirs[s], MarkNums, GeometryOf(img)) == BeforeDir(img.dirs[s], UpdateNums)
    {
    }
    PassStarts(img, t, d, UpdateNums);
  }

  lemma BeforeMarking(dir: Dir)
    ensures BeforeDir(dir, MarkNums) == dir.entries
  {
  }

  lemma UntouchedStartsMark(img: Disk, t: Tree, d: Disk)
    requires WellFormed(img, t) && d.dirs == img.dirs
    ensures InPass(img, t, d, MarkNums)
  {
    hide WellFormed, BeforeDir, InPass;
    forall s <- t.height
      ensures s in img.dirs && img.dirs[s].entries == BeforeDir(img.dirs[s], MarkNums)
    {
      TreeSlot(img, t, s);
      BeforeMarking(img.dirs[s]);
    }
    PassStarts(img, t, d, MarkNums);
  }

  // ----- one stage of a run

  lemma RootSlot(ipg: pos)
    requires ipg >= 2
    ensures SlotOf(ROOT_INO, ipg) == ROOT
  {
  }

  lemma PassKeeps(img: Disk, t: Tree, d: Disk, p: Power, mode: Mode, stack: nat)
    requires InPass(img, t, d, mode) && ROOT in t.height && stack > t.height[ROOT]
    ensures ROOT in d.dirs
    ensures var r := RecurseDir(d, p, ROOT, mode, GeometryOf(img), stack);
      && r.status != Fatal && InPass(img, t, r.disk, mode)
      && (r.status == Ok ==> AllDone(img, t, r.disk, mode))
      && (p == Forever ==> r.power == Forever && r.status == Ok)
  {
    hide WellFormed, PassInv, JobFits, PlanOf;
    TreeInPlan(img, t, mode);
    RecurseKeeps(img.dirs, PlanOf(img, t, mode), d, p, ROOT, mode, GeometryOf(img), stack);
    var r := RecurseDir(d, p, ROOT, mode, GeometryOf(img), stack);
    AdvancedPassing(img.dirs, PlanOf(img, t, mode), d, r.disk, mode, GeometryOf(img), t.height[ROOT] + 1);
    if r.status == Ok { PassDone(img, t, r.disk, mode); }
  }

  lemma TreeInPlan(img: Disk, t: Tree, mode: Mode)
    requires WellFormed(img, t)
    ensures |img.sbs| > 0 && ROOT in t.height && ROOT in img.dirs
    ensures PlanOf(img, t, mode).Keys == t.height.Keys
    ensures PlanOf(img, t, mode)[ROOT].height == t.height[ROOT]
  {
  }

  lemma TreeSlot(img: Disk, t: Tree, s: Slot)
    requires WellFormed(img, t) && s in t.height
    ensures |img.sbs| > 0 && img.sbs[0].ipg >= 2 && s in img.dirs && ROOT in t.height && t.height[s] <= t.height[ROOT]
    ensures ValidDir(img.dirs[s])
  {
  }

  /** The sanity check of an untouched image finds no error and changes nothing. */
  lemma {:induction false} SanityPasses(img: Disk, t: Tree, d: Disk, p: Power, s: Slot, stack: nat)
    requires WellFormed(img, t) && d.dirs == img.dirs && s in t.height && stack > t.height[s]
    ensures RecurseDir(d, p, s, SanityCheck, GeometryOf(img), stack) == Result(d, p, Ok)
    decreases stack, 0
  {
    SanityWalks(img, t, d, p, s, 0, 0, stack - 1);
  }

  lemma {:induction false} SanityWalks(img: Disk, t: Tree, d: Disk, p: Power, s: Slot, i: nat, at: nat, stack: nat)
    requires WellFormed(img, t) && d.dirs == img.dirs && s in t.height && stack >= t.height[s]
    requires i <= LiveCount(img.dirs[s].entries)
    ensures var w := Walk(d, p, d.dirs[s].entries, i, at, d.dirs[s].size, SanityCheck, GeometryOf(img), stack);
      w.disk == d && w.power == p && w.status == Ok
    decreases stack, |img.dirs[s].entries| - i + 1
  {
    hide WellFormed, NewIpg, NewInum, Mark, Walk;
    TreeSlot(img, t, s);
    var es, g := d.dirs[s].entries, GeometryOf(img);
    if i < LiveCount(es) {
      RecordIsValid(img, t, s, i);
      if Descends(d.dirs.Keys, es[i], SanityCheck, g) {
        SanityPasses(img, t, d, p, SlotAt(img, s, i), stack);
      }
      SanityWalks(img, t, d, p, s, i + 1, at + es[i].recLen, stack);
      SanityStep(d, p, es, i, at, d.dirs[s].size, g, stack);
    } else {
      SanityEnds(d, p, es, i, at, d.dirs[s].size, g, stack);
    }
  }

  lemma SanityStep(d: Disk, p: Power, es: seq<Entry>, i: nat, at: nat, size: nat, g: Geometry, stack: nat)
    requires i < |es| && Enter(d, p, es[i], SanityCheck, g, stack) == Result(d, p, Ok)
    requires var w := Walk(d, p, es, i + 1, at + es[i].recLen, size, SanityCheck, g, stack);
      w.disk == d && w.power == p && w.status == Ok
    ensures var w := Walk(d, p, es, i, at, size, SanityCheck, g, stack);
      w.disk == d && w.power == p && w.status == Ok
  {
    hide Enter;
    assert es[i := es[i].(inum := Rewrite(es[i].inum, SanityCheck, g))] == es;
  }

  lemma SanityEnds(d: Disk, p: Power, es: seq<Entry>, i: nat, at: nat, size: nat, g: Geometry, stack: nat)
    requires i == |es| || (i < |es| && es[i].inum == 0)
    ensures var w := Walk(d, p, es, i, at, size, SanityCheck, g, stack);
      w.disk == d && w.power == p && w.status == Ok
  {
    hide Enter;
  }

  /** The marking or updating stage, cut or completed, ends in a state from which a run can go on. */
  lemma StageAfterPass(img: Disk, t: Tree, d: Disk, p: Power, mode: Mode, next: Phase, stack: nat)
    requires Stage(img, t, d) && ROOT in t.height && stack > t.height[ROOT]
    requires (mode, d.phase, next) in {(MarkNums, MarkingInums, UpdatingInums), (UpdateNums, UpdatingInums, UpdatingSb)}
    ensures |d.sbs| > 0 && SlotOf(ROOT_INO, GeometryOf(d).ipg) in d.dirs
    ensures var r := Pass(d, p, mode, next, GeometryOf(d), stack);
      && r.status != Fatal && Stage(img, t, r.disk)
      && (r.status == Ok ==> r.disk.phase == next)
      && (p == Forever ==> r.power == Forever && r.status == Ok)
  {
    hide WellFormed, InPass, AllDone, RecurseDir;
    TreeSlot(img, t, ROOT);
    StageGeometry(img, t, d);
    PassKeeps(img, t, d, p, mode, stack);
    var r, r' := RecurseDir(d, p, ROOT, mode, GeometryOf(d), stack), Pass(d, p, mode, next, GeometryOf(d), stack);
    DirsAlike(img, t, r.disk, r'.disk, mode);
    if r.status == Ok && mode == MarkNums { MarkedStartsUpdate(img, t, r'.disk); }
  }

  lemma DirsAlike(img: Disk, t: Tree, d: Disk, d': Disk, mode: Mode)
    requires d'.dirs == d.dirs
    ensures InPass(img, t, d, mode) ==> InPass(img, t, d', mode)
    ensures AllDone(img, t, d, mode) ==> AllDone(img, t, d', mode)
  {
    hide WellFormed, PassInv, PlanOf, JobFits;
    if InPass(img, t, d, mode) { InvAlike(PlanOf(img, t, mode), d, d'); }
  }

  lemma InvAlike(plan: map<Slot, Job>, d: Disk, d': Disk)
    requires d'.dirs == d.dirs && PassInv(plan, d)
    ensures PassInv(plan, d')
  {
    forall s <- plan, k: nat | k < |plan[s].after|
      ensures RecordOk(plan, d', s, k)
    {
      assert RecordOk(plan, d, s, k);
    }
  }

  lemma StageGeometry(img: Disk, t: Tree, d: Disk)
    requires Stage(img, t, d)
    ensures |d.sbs| > 0 && |img.sbs| > 0 && GeometryOf(d).newIpg == NewIpg(img)
    ensures d.phase != UpdatingSb ==> GeometryOf(d) == GeometryOf(img)
    ensures SlotOf(ROOT_INO, GeometryOf(d).ipg) == ROOT && ROOT in d.dirs
  {
    AlignBounds(img.sbs[0].ipg, img.inodesPerBlock);
    RootSlot(d.sbs[0].ipg);
  }

  /** The superblock loop rewrites the superblocks from i on and nothing else. */
  lemma {:induction false} SupersKeep(d: Disk, p: Power, newIpg: pos, i: nat)
    requires i <= |d.sbs|
    ensures var r := UpdateSupers(d, p, newIpg, i);
      && r.status != Fatal
      && r.disk == d.(sbs := r.disk.sbs) && |r.disk.sbs| == |d.sbs|
      && (forall j :: 0 <= j < i ==> r.disk.sbs[j] == d.sbs[j])
      && (forall j :: i <= j < |d.sbs| ==> r.disk.sbs[j].ipg == newIpg || r.disk.sbs[j] == d.sbs[j])
      && (r.status == Ok ==> forall j :: i <= j < |d.sbs| ==>
        r.disk.sbs[j].ipg == newIpg && (j > 0 ==> !r.disk.sbs[j].locked))
      && (i < |d.sbs| ==> r.disk.sbs[0].locked == d.sbs[0].locked)
      && (p == Forever ==> r.power == Forever && r.status == Ok)
    decreases |d.sbs| - i
  {
    if i < |d.sbs| && p != Writes(0) && Spend(p) != Writes(0) {
      SupersKeep(d.(sbs := d.sbs[i := Super(newIpg, i == 0 && d.sbs[0].locked)]), Spend(Spend(p)), newIpg, i + 1);
    }
  }

  /** The last stage, cut or completed, leaves the renumbered directories and an old or new superblock. */
  lemma StageAfterFinish(img: Disk, t: Tree, d: Disk, p: Power, g: Geometry)
    requires Stage(img, t, d) && d.phase == UpdatingSb
    requires |img.sbs| > 0 && g.newIpg == NewIpg(img)
    ensures |d.sbs| > 0
    ensures var r := Finish(d, p, g);
      && r.status != Fatal && (Stage(img, t, r.disk) || Renewed(img, t, r.disk))
      && (r.status == Ok ==> Completed(img, t, r.disk))
      && (p == Forever ==> r.status == Ok)
  {
    hide WellFormed, AllDone, UpdateSupers;
    StageGeometry(img, t, d);
    SupersKeep(d, p, NewIpg(img), 0);
    DirsAlike(img, t, d, Finish(d, p, g).disk, UpdateNums);
    DirsAlike(img, t, d, UpdateSupers(d, p, NewIpg(img), 0).disk, UpdateNums);
  }

  /** The first stage of a run on an untouched image. */
  lemma StageAfterSanity(img: Disk, t: Tree, d: Disk, p: Power, stack: nat)
    requires Stage(img, t, d) && d.phase == Unset && ROOT in t.height && stack > t.height[ROOT]
    ensures |d.sbs| > 0 && SlotOf(ROOT_INO, GeometryOf(d).ipg) in d.dirs
    ensures Pass(d, p, SanityCheck, MarkingInums, GeometryOf(d), stack) == SetPhase(d, p, MarkingInums)
    ensures Stage(img, t, SetPhase(d, p, MarkingInums).disk)
  {
    hide WellFormed, InPass, RecurseDir;
    TreeSlot(img, t, ROOT);
    StageGeometry(img, t, d);
    SanityPasses(img, t, d, p, ROOT, stack);
    UntouchedStartsMark(img, t, SetPhase(d, p, MarkingInums).disk);
  }

  /** A run from any stage ends in a stage, and a run that is not cut completes the renumbering. */
  lemma RunFromStage(img: Disk, t: Tree, d: Disk, p: Power, stack: nat)
    requires Stage(img, t, d) && ROOT in t.height && stack > t.height[ROOT]
    ensures |d.sbs| > 0
    ensures var r := Run(d, p, stack);
      && r.status != Fatal && (Stage(img, t, r.disk) || Renewed(img, t, r.disk))
      && (r.status == Ok ==> Completed(img, t, r.disk))
      && (p == Forever ==> r.status == Ok)
  {
    hide Stage, Renewed, Completed, Pass, Finish;
    StageGeometry(img, t, d);
    var g := GeometryOf(d);
    var r0 := Result(d, p, Ok);
    if d.phase == Unset {
      StageAfterSanity(img, t, d, p, stack);
      r0 := SetPhase(d, p, MarkingInums);
    }
    if r0.status == Ok {
      var r1 := r0;
      if r0.disk.phase == MarkingInums {
        StageGeometry(img, t, r0.disk);
        StageAfterPass(img, t, r0.disk, r0.power, MarkNums, UpdatingInums, stack);
        r1 := Pass(r0.disk, r0.power, MarkNums, UpdatingInums, g, stack);
      }
      if r1.status == Ok {
        var r2 := r1;
        if r1.disk.phase == UpdatingInums {
          StageGeometry(img, t, r1.disk);
          StageAfterPass(img, t, r1.disk, r1.power, UpdateNums, UpdatingSb, stack);
          r2 := Pass(r1.disk, r1.power, UpdateNums, UpdatingSb, g, stack);
        }
        if r2.status == Ok {
          StageGeometry(img, t, r2.disk);
          StageAfterFinish(img, t, r2.disk, r2.power, g);
        }
      }
    }
  }
}
