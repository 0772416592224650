/** A small image that the renumbering tool accepts: a root directory with one subdirectory. */
module FixupExample {
  import opened Arith
  import opened Fixup
  import opened FixupPass
  import opened FixupRuns
  import opened FixupTheorems

  const SUB: Slot := Slot(1, 2)

  function RootDir(): Dir {
    Dir([Entry(2, 12, ".", FtDir, 0), Entry(2, 12, "..", FtDir, 0), Entry(11, 1000, "sub", FtDir, 0)], 1, 1024)
  }

  function SubDir(): Dir {
    Dir([Entry(11, 12, ".", FtDir, 0), Entry(2, 12, "..", FtDir, 0), Entry(12, 1000, "file", FtOther, 0)], 1, 1024)
  }

  function Image(): Disk {
    Disk(map[ROOT := RootDir(), SUB := SubDir()], Unset, [Super(8, false), Super(8, false)], 16)
  }

  function ImageTree(): Tree {
    Tree(map[ROOT := 1, SUB := 0], map[SUB := (ROOT, 2)])
  }

  lemma LiveIs(es: seq<Entry>)
    requires |es| == 3 && es[0].inum != 0 && es[1].inum != 0 && es[2].inum != 0
    ensures LiveCount(es) == 3
  {
    AllLive(es, 0);
  }

  lemma RecordsAreValid()
    ensures forall s <- ImageTree().height, k: nat | k < |Image().dirs[s].entries| ::
      ValidRecord(Image(), ImageTree(), s, k)
  {
    LiveIs(RootDir().entries);
    LiveIs(SubDir().entries);
    AlignBounds(8, 16);
    assert NewIpg(Image()) == 16;
    assert SlotOf(2, 8) == ROOT && SlotOf(11, 8) == SUB && SlotOf(12, 8) == Slot(1, 3);
    assert IsDots(".") && IsDots("..") && !IsDots("sub");
    forall s <- ImageTree().height, k: nat | k < |Image().dirs[s].entries|
      ensures ValidRecord(Image(), ImageTree(), s, k)
    {
      assert k == 0 || k == 1 || k == 2;
      assert s == ROOT || s == SUB;
    }
  }

  /** The assumptions of the crash-safety results can be met, by an image whose numbers do change. */
  lemma ImageIsWellFormed()
    ensures WellFormed(Image(), ImageTree())
    ensures Image().phase == Unset && !Image().sbs[0].locked
    ensures NewInum(11, GeometryOf(Image())) == 19
  {
    RecordsAreValid();
    LiveIs(RootDir().entries);
    LiveIs(SubDir().entries);
    AlignBounds(8, 16);
    assert NewIpg(Image()) == 16;
    assert SlotOf(11, 8) == SUB && !IsDots("sub");
    assert ByteAt(RootDir().entries, 1) == 12 && ByteAt(RootDir().entries, 2) == 24
      && ByteAt(RootDir().entries, 3) == 1024;
    assert ByteAt(SubDir().entries, 1) == 12 && ByteAt(SubDir().entries, 2) == 24
      && ByteAt(SubDir().entries, 3) == 1024;
    assert Subdir(Image(), ROOT, 2) && SlotAt(Image(), ROOT, 2) == SUB;
    assert HasParent(Image(), ImageTree(), SUB);
  }

  // ----- a record behind one with a zero inode number

  function LateDir(): Dir {
    Dir([Entry(2, 12, ".", FtDir, 0), Entry(2, 12, "..", FtDir, 0), Entry(0, 12, "gone", FtOther, 0),
         Entry(11, 988, "late", FtOther, 0)], 1, 1024)
  }

  function LateImage(): Disk {
    Disk(map[ROOT := LateDir()], Unset, [Super(8, false)], 16)
  }

  function LateTree(): Tree {
    Tree(map[ROOT := 0], map[])
  }

  lemma LateIsWellFormed()
    ensures WellFormed(LateImage(), LateTree()) && LiveCount(LateDir().entries) == 2
    ensures NewIpg(LateImage()) == 16 && GeometryOf(LateImage()) == Geometry(8, 16)
  {
    var es := LateDir().entries;
    assert LiveFrom(es, 2) == 2 && LiveFrom(es, 1) == 2 && LiveFrom(es, 0) == 2;
    assert ByteAt(es, 1) == 12 && ByteAt(es, 2) == 24 && ByteAt(es, 3) == 36 && ByteAt(es, 4) == 1024;
    AlignBounds(8, 16);
    assert NewIpg(LateImage()) == 16;
    assert SlotOf(2, 8) == ROOT && IsDots(".") && IsDots("..");
    forall s <- LateTree().height, k: nat | k < |LateImage().dirs[s].entries|
      ensures ValidRecord(LateImage(), LateTree(), s, k)
    {
      assert s == ROOT && (k == 0 || k == 1 || k == 2 || k == 3);
    }
  }

  /** A complete run over this image leaves the last record at its old number, which by then names another inode. */
  lemma LateRecordIsStale()
    ensures var d := Run(LateImage(), Forever, 1).disk;
      && Completed(LateImage(), LateTree(), d)
      && ROOT in d.dirs && |d.dirs[ROOT].entries| == 4 && d.dirs[ROOT].entries[3].inum == 11
      && |d.sbs| > 0 && SlotOf(11, d.sbs[0].ipg) != SlotOf(11, LateImage().sbs[0].ipg)
  {
    hide WellFormed, Completed, Run, Walk, NewInum;
    LateIsWellFormed();
    CrashSafe(LateImage(), LateTree(), [], Forever, 1);
    var d := Run(LateImage(), Forever, 1).disk;
    assert RunMany(LateImage(), [], 1) == LateImage();
    RenumberedExactly(LateImage(), LateTree(), d, ROOT, 3);
    CompletedShape(LateImage(), LateTree(), d);
    assert SlotOf(11, 16) == Slot(0, 10) && SlotOf(11, 8) == Slot(1, 2);
  }

  lemma CompletedShape(img: Disk, t: Tree, d: Disk)
    requires WellFormed(img, t) && Completed(img, t, d)
    ensures |d.sbs| > 0 && d.sbs[0].ipg == NewIpg(img)
    ensures forall s <- t.height :: s in img.dirs && s in d.dirs && |d.dirs[s].entries| == |img.dirs[s].entries|
  {
  }
}
