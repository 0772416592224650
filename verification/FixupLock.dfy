/** When a half-renumbered file system is kept unmountable, and the one cut after which it is not. */
module FixupLock {
  import opened Arith
  import opened Fixup
  import opened FixupPass
  import opened FixupRuns
  import opened FixupTheorems

  /** Once a phase is recorded the primary superblock is locked. */
  ghost predicate Guarded(d: Disk) {
    |d.sbs| > 0 && (d.phase != Unset ==> d.sbs[0].locked)
  }

  /** The run stops between recording the first phase and locking the superblock. */
  ghost predicate Tears(d: Disk, p: Power) {
    |d.sbs| > 0 && d.phase == Unset && !d.sbs[0].locked && p == Writes(1)
  }

  lemma PassKeepsGuard(img: Disk, t: Tree, d: Disk, p: Power, mode: Mode, next: Phase, stack: nat)
    requires Stage(img, t, d) && Guarded(d) && ROOT in t.height && stack > t.height[ROOT] && next != Unset
    requires d.phase in {MarkingInums, UpdatingInums}
    ensures SlotOf(ROOT_INO, GeometryOf(d).ipg) in d.dirs && Guarded(Pass(d, p, mode, next, GeometryOf(d), stack).disk)
  {
    hide WellFormed, InPass;
    StageGeometry(img, t, d);
  }

  /** Exactly one cut of one run loses the guard. */
  lemma GuardKept(img: Disk, t: Tree, d: Disk, p: Power, stack: nat)
    requires Stage(img, t, d) && Guarded(d) && ROOT in t.height && stack > t.height[ROOT]
    ensures Guarded(Run(d, p, stack).disk) <==> !Tears(d, p)
  {
    hide Stage, Renewed, Pass;
    StageGeometry(img, t, d);
    var g := GeometryOf(d);
    var r0 := Result(d, p, Ok);
    if d.phase == Unset {
      StageAfterSanity(img, t, d, p, stack);
      r0 := SetPhase(d, p, MarkingInums);
    }
    if r0.status == Ok {
      var r1 := r0;
      if r0.disk.phase == MarkingInums {
        StageGeometry(img, t, r0.disk);
        StageAfterPass(img, t, r0.disk, r0.power, MarkNums, UpdatingInums, stack);
        PassKeepsGuard(img, t, r0.disk, r0.power, MarkNums, UpdatingInums, stack);
        r1 := Pass(r0.disk, r0.power, MarkNums, UpdatingInums, g, stack);
      }
      if r1.status == Ok {
        var r2 := r1;
        if r1.disk.phase == UpdatingInums {
          StageGeometry(img, t, r1.disk);
          StageAfterPass(img, t, r1.disk, r1.power, UpdateNums, UpdatingSb, stack);
          PassKeepsGuard(img, t, r1.disk, r1.power, UpdateNums, UpdatingSb, stack);
          r2 := Pass(r1.disk, r1.power, UpdateNums, UpdatingSb, g, stack);
        }
        if r2.status == Ok && r2.disk.phase == UpdatingSb {
          SupersKeep(r2.disk, r2.power, g.newIpg, 0);
        }
      }
    }
  }

  /** No run of the sequence is cut between its first two writes. */
  ghost predicate NoTear(d: Disk, powers: seq<Power>, stack: nat)
    requires |d.sbs| > 0
    decreases |powers|
  {
    powers == [] || (!Tears(d, powers[0]) && NoTear(Run(d, powers[0], stack).disk, powers[1..], stack))
  }

  lemma {:induction false} RunsKeepGuard(img: Disk, t: Tree, base: Disk, d: Disk, powers: seq<Power>, stack: nat)
    requires WellFormed(img, t) && Base(img, t, base) && Stage(base, t, d) && Guarded(d)
    requires ROOT in t.height && stack > t.height[ROOT] && NoTear(d, powers, stack)
    ensures Guarded(RunMany(d, powers, stack))
    decreases |powers|
  {
    hide WellFormed, Stage, Base, Run;
    if powers != [] {
      GuardKept(base, t, d, powers[0], stack);
      var next := RunKeepsStage(img, t, base, d, powers[0], stack);
      RunsKeepGuard(img, t, next, Run(d, powers[0], stack).disk, powers[1..], stack);
    }
  }

  /** While no run is torn, a marked record anywhere in the tree means the file system is locked. */
  lemma MarkedMeansLocked(img: Disk, t: Tree, powers: seq<Power>, stack: nat, s: Slot, k: nat)
    requires WellFormed(img, t) && img.phase == Unset && stack > t.height[ROOT]
    requires NoTear(img, powers, stack)
    requires s in t.height && s in img.dirs && k < LiveCount(img.dirs[s].entries)
    ensures var d := RunMany(img, powers, stack);
      && s in d.dirs && |d.dirs[s].entries| == |img.dirs[s].entries|
      && (Marked(d.dirs[s].entries[k].inum) ==> d.sbs[0].locked)
  {
    hide WellFormed, Stage, RunMany, NoTear, Renewed;
    ImageIsStage(img, t);
    RunsKeepGuard(img, t, img, img, powers, stack);
    var base := RunsKeepStage(img, t, img, img, powers, stack);
    BaseWellFormed(img, t, base);
    BaseLive(img, t, base, s);
    TreeSlot(base, t, s);
    RecordIsValid(base, t, s, k);
    RecordAtCut(base, t, RunMany(img, powers, stack), s, k);
  }

  lemma BaseLive(img: Disk, t: Tree, base: Disk, s: Slot)
    requires WellFormed(img, t) && Base(img, t, base) && s in t.height
    ensures s in img.dirs && s in base.dirs && SameLayout(img.dirs[s], base.dirs[s])
    ensures LiveCount(base.dirs[s].entries) == LiveCount(img.dirs[s].entries)
  {
    if base != img { RenewedDir(img, t, base, s); }
  }

  // ----- a torn run does expose marked records: every pass takes a definite number of writes

  lemma {:induction false} WriteBlocksCost(d: Disk, s: Slot, buf: seq<Entry>, b: nat) returns (n: nat)
    requires s in d.dirs && |buf| == |d.dirs[s].entries|
    ensures forall m: nat ::
      WriteBlocks(d, Writes(n + m), s, buf, b) == Result(WriteBlocks(d, Forever, s, buf, b).disk, Writes(m), Ok)
    ensures WriteBlocks(d, Forever, s, buf, b).power == Forever && WriteBlocks(d, Forever, s, buf, b).status == Ok
    decreases d.dirs[s].blocks - b
  {
    n := 0;
    if b < d.dirs[s].blocks {
      var rest := WriteBlocksCost(d.(dirs := d.dirs[s := PutBlock(d.dirs[s], buf, b)]), s, buf, b + 1);
      n := rest + 1;
    }
  }

  lemma {:induction false} WalkCost(d: Disk, buf: seq<Entry>, i: nat, at: nat, size: nat, mode: Mode, g: Geometry,
          stack: nat) returns (n: nat)
    requires i <= |buf|
    ensures var w := Walk(d, Forever, buf, i, at, size, mode, g, stack);
      && w.power == Forever
      && forall m: nat :: Walk(d, Writes(n + m), buf, i, at, size, mode, g, stack) == w.(power := Writes(m))
    decreases stack, |buf| - i + 1
  {
    hide Enter, SameFrame, Descends, Rewrite;
    n := 0;
    if at < size && !(mode != MarkNums && size - at <= 8 && i > 0) && i < |buf| && buf[i].inum != 0 {
      var e := buf[i];
      n := EnterCost(d, e, mode, g, stack);
      var r := Enter(d, Forever, e, mode, g, stack);
      if r.status == Ok {
        var next := buf[i := e.(inum := Rewrite(e.inum, mode, g))];
        var rest := WalkCost(r.disk, next, i + 1, at + e.recLen, size, mode, g, stack);
        forall m: nat
          ensures Walk(d, Writes(n + rest + m), buf, i, at, size, mode, g, stack)
               == Walk(d, Forever, buf, i, at, size, mode, g, stack).(power := Writes(m))
        {
          assert Enter(d, Writes(n + (rest + m)), e, mode, g, stack) == Result(r.disk, Writes(rest + m), Ok);
        }
        n := n + rest;
      }
    }
  }

  lemma {:induction false} EnterCost(d: Disk, e: Entry, mode: Mode, g: Geometry, stack: nat) returns (n: nat)
    ensures var r := Enter(d, Forever, e, mode, g, stack);
      r.power == Forever && forall m: nat :: Enter(d, Writes(n + m), e, mode, g, stack) == r.(power := Writes(m))
    decreases stack, 1, 0
  {
    n := 0;
    if Descends(d.dirs.Keys, e, mode, g) && SlotOf(Unmark(e.inum), g.ipg) in d.dirs {
      n := RecurseCost(d, SlotOf(Unmark(e.inum), g.ipg), mode, g, stack);
    }
  }

  lemma {:induction false} RecurseCost(d: Disk, s: Slot, mode: Mode, g: Geometry, stack: nat) returns (n: nat)
    requires s in d.dirs
    ensures var r := RecurseDir(d, Forever, s, mode, g, stack);
      r.power == Forever && forall m: nat :: RecurseDir(d, Writes(n + m), s, mode, g, stack) == r.(power := Writes(m))
    decreases stack, 0, 0
  {
    hide Walk, WriteBlocks;
    n := 0;
    if stack > 0 {
      n := WalkCost(d, d.dirs[s].entries, 0, 0, d.dirs[s].size, mode, g, stack - 1);
      var w := Walk(d, Forever, d.dirs[s].entries, 0, 0, d.dirs[s].size, mode, g, stack - 1);
      if w.status == Ok && mode != SanityCheck {
        var rest := WriteBlocksCost(w.disk, s, w.buf, 0);
        forall m: nat
          ensures RecurseDir(d, Writes(n + rest + m), s, mode, g, stack)
              == RecurseDir(d, Forever, s, mode, g, stack).(power := Writes(m))
        {
          assert Walk(d, Writes(n + (rest + m)), d.dirs[s].entries, 0, 0, d.dirs[s].size, mode, g, stack - 1)
              == w.(power := Writes(rest + m));
        }
        n := n + rest;
      }
    }
  }

  /** From a torn disk some cut leaves every live record marked and the file system mountable. */
  lemma TornExposes(base: Disk, t: Tree, d: Disk, stack: nat) returns (p: Power)
    requires Stage(base, t, d) && d.phase == MarkingInums && ROOT in t.height && stack > t.height[ROOT]
    requires |d.sbs| > 0 && !d.sbs[0].locked
    ensures var d' := Run(d, p, stack).disk;
      && d'.sbs == d.sbs
      && AllDone(base, t, d', MarkNums)
  {
    hide WellFormed, InPass, AllDone;
    StageGeometry(base, t, d);
    TreeSlot(base, t, ROOT);
    PassKeeps(base, t, d, Forever, MarkNums, stack);
    var n := RecurseCost(d, ROOT, MarkNums, GeometryOf(d), stack);
    p := Writes(n + 0);
  }

  /** The cut that tears a run: one write into the first run on an unlocked image. */
  lemma FirstWriteTears(img: Disk, t: Tree, stack: nat) returns (p: Power)
    requires WellFormed(img, t) && img.phase == Unset && !img.sbs[0].locked && stack > t.height[ROOT]
    ensures var d := RunMany(img, [Writes(1), p], stack);
      !d.sbs[0].locked && AllDone(img, t, d, MarkNums)
  {
    hide WellFormed, Stage, AllDone, Run;
    ImageIsStage(img, t);
    RunFromStage(img, t, img, Writes(1), stack);
    TornState(img, t, stack);
    var d := Run(img, Writes(1), stack).disk;
    p := TornExposes(img, t, d, stack);
    assert [Writes(1), p][1..] == [p];
    assert RunMany(d, [p], stack) == Run(d, p, stack).disk;
  }

  lemma TornState(img: Disk, t: Tree, stack: nat)
    requires Stage(img, t, img) && img.phase == Unset && !img.sbs[0].locked && ROOT in t.height
      && stack > t.height[ROOT]
    ensures var d := Run(img, Writes(1), stack).disk;
      Stage(img, t, d) && |d.sbs| > 0 && d.phase == MarkingInums && !d.sbs[0].locked
  {
    hide Stage;
    StageAfterSanity(img, t, img, Writes(1), stack);
  }
}
