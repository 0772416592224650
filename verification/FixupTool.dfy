/** The renumbering tool as it runs: passes that rewrite a directory buffer and write it back. */
module FixupTool {
  import opened Arith
  import opened Fixup

  class Machine {
    var dirs: map<Slot, Dir>
    var phase: Phase
    var sbs: seq<Super>
    var power: Power
    const inodesPerBlock: pos

    constructor (d: Disk, p: Power)
      ensures State() == d && power == p
    {
      dirs, phase, sbs, power := d.dirs, d.phase, d.sbs, p;
      inodesPerBlock := d.inodesPerBlock;
    }

    ghost function State(): Disk
      reads this
    {
      Disk(dirs, phase, sbs, inodesPerBlock)
    }

    /** Whether the machine still runs for one more write; that write is then accounted for. */
    method TakeWrite() returns (ok: bool)
      modifies this`power
      ensures ok == (old(power) != Writes(0))
      ensures power == if ok then Spend(old(power)) else old(power)
    {
      ok := power != Writes(0);
      if ok { power := Spend(power); }
    }

    method RecurseDir(s: Slot, mode: Mode, g: Geometry, stack: nat) returns (status: Status)
      requires s in dirs
      modifies this
      ensures Fixup.RecurseDir(old(State()), old(power), s, mode, g, stack) == Result(State(), power, status)
      decreases stack, 0
    {
      hide Walk, WriteBlocks;
      if stack == 0 { return Fatal; }
      var es, size := dirs[s].entries, dirs[s].size;
      var dirbuf := new Entry[|es|](k requires 0 <= k < |es| => es[k]);
      assert dirbuf[..] == es;
      status := WalkBuffer(dirbuf, size, mode, g, stack - 1);
      if status != Ok || mode == SanityCheck { return; }
      status := WriteBuffer(s, dirbuf);
    }

    method WriteBuffer(s: Slot, dirbuf: array<Entry>) returns (status: Status)
      requires s in dirs && |dirs[s].entries| == dirbuf.Length
      modifies this
      ensures WriteBlocks(old(State()), old(power), s, dirbuf[..], 0) == Result(State(), power, status)
    {
      var b := 0;
      while b < dirs[s].blocks
        invariant s in dirs && |dirs[s].entries| == dirbuf.Length
        invariant WriteBlocks(old(State()), old(power), s, dirbuf[..], 0)
            == WriteBlocks(State(), power, s, dirbuf[..], b)
        decreases dirs[s].blocks - b
      {
        var ok := TakeWrite();
        if !ok { return Cut; }
        dirs := dirs[s := PutBlock(dirs[s], dirbuf[..], b)];
        b := b + 1;
      }
      status := Ok;
    }

    method WalkBuffer(dirbuf: array<Entry>, size: nat, mode: Mode, g: Geometry, stack: nat) returns (status: Status)
      modifies this, dirbuf
      ensures Walk(old(State()), old(power), old(dirbuf[..]), 0, 0, size, mode, g, stack)
          == Walked(State(), power, status, dirbuf[..])
      decreases stack, 2
    {
      hide SameFrame, Enter, Rewrite;
      var i: nat, at: nat := 0, 0;
      while at < size
        invariant 0 <= i <= dirbuf.Length && 0 <= at
        invariant Walk(old(State()), old(power), old(dirbuf[..]), 0, 0, size, mode, g, stack)
               == Walk(State(), power, dirbuf[..], i, at, size, mode, g, stack)
        decreases dirbuf.Length - i
      {
        if mode != MarkNums && size - at <= 8 && i > 0 {
          ghost var was := dirbuf[..];
          dirbuf[i - 1] := dirbuf[i - 1].(recLen := dirbuf[i - 1].recLen + (size - at));
          assert dirbuf[..] == was[i - 1 := was[i - 1].(recLen := was[i - 1].recLen + (size - at))];
          return Ok;
        }
        if i == dirbuf.Length || dirbuf[i].inum == 0 { return Ok; }
        var e := dirbuf[i];
        status := EnterRecord(e, mode, g, stack);
        if status != Ok { return; }
        ghost var was := dirbuf[..];
        dirbuf[i] := e.(inum := Rewrite(e.inum, mode, g));
        assert dirbuf[..] == was[i := e.(inum := Rewrite(e.inum, mode, g))];
        i, at := i + 1, at + e.recLen;
      }
      status := Ok;
    }

    method EnterRecord(e: Entry, mode: Mode, g: Geometry, stack: nat) returns (status: Status)
      modifies this
      ensures Enter(old(State()), old(power), e, mode, g, stack) == Result(State(), power, status)
      decreases stack, 1
    {
      if !Descends(dirs.Keys, e, mode, g) { return Ok; }
      var c := SlotOf(Unmark(e.inum), g.ipg);
      if c !in dirs { return Fatal; }
      status := RecurseDir(c, mode, g, stack);
    }

    method SetPhase(next: Phase) returns (status: Status)
      requires |sbs| > 0
      modifies this
      ensures Fixup.SetPhase(old(State()), old(power), next) == Result(State(), power, status)
    {
      var ok := TakeWrite();
      if !ok { return Cut; }
      phase := next;
      ok := TakeWrite();
      if !ok { return Cut; }
      sbs := sbs[0 := sbs[0].(locked := phase != Unset)];
      status := Ok;
    }

    method UpdateSupers(newIpg: pos) returns (status: Status)
      modifies this
      ensures Fixup.UpdateSupers(old(State()), old(power), newIpg, 0) == Result(State(), power, status)
    {
      var i := 0;
      while i < |sbs|
        invariant Fixup.UpdateSupers(old(State()), old(power), newIpg, 0)
            == Fixup.UpdateSupers(State(), power, newIpg, i)
        decreases |sbs| - i
      {
        var ok := TakeWrite();
        if !ok { return Cut; }
        sbs := sbs[i := Super(newIpg, i == 0 && sbs[0].locked)];
        ok := TakeWrite();  // the descriptor table of the group
        if !ok { return Cut; }
        i := i + 1;
      }
      status := Ok;
    }

    method Pass(mode: Mode, next: Phase, g: Geometry, stack: nat) returns (status: Status)
      requires |sbs| > 0 && SlotOf(ROOT_INO, g.ipg) in dirs
      modifies this
      ensures Fixup.Pass(old(State()), old(power), mode, next, g, stack) == Result(State(), power, status)
    {
      status := RecurseDir(SlotOf(ROOT_INO, g.ipg), mode, g, stack);
      if status != Ok { return; }
      status := SetPhase(next);
    }

    /** One run of the tool, from reading the superblock to the last write the power allows. */
    method Run(stack: nat) returns (status: Status)
      requires |sbs| > 0
      modifies this
      ensures Fixup.Run(old(State()), old(power), stack) == Result(State(), power, status)
    {
      AlignBounds(sbs[0].ipg, inodesPerBlock);
      var g := Geometry(sbs[0].ipg, Align(sbs[0].ipg, inodesPerBlock));
      if SlotOf(ROOT_INO, g.ipg) !in dirs { return Fatal; }
      if phase == Unset {
        status := Pass(SanityCheck, MarkingInums, g, stack);
        if status != Ok { return; }
      }
      if phase == MarkingInums {
        status := Pass(MarkNums, UpdatingInums, g, stack);
        if status != Ok { return; }
      }
      if phase == UpdatingInums {
        status := Pass(UpdateNums, UpdatingSb, g, stack);
        if status != Ok { return; }
      }
      status := Ok;
      if phase == UpdatingSb {
        status := UpdateSupers(g.newIpg);
        if status != Ok { return; }
        status := SetPhase(Unset);
      }
    }
  }
}
