/** What a number of writes comes to: the disk when the machine stops after n of them. Also what marking a number means
    for the 32-bit field it is stored in. */
module FixupWrites {
  import opened Arith
  import opened Fixup
  import opened Words

  function WithTop(x: Word32): Word32 { x | 0x8000_0000 }

  lemma SetTop(x: Word32)
    ensures Top(WithTop(x)) && Rest(WithTop(x)) == Rest(x)
  {
  }

  lemma MarkNumber(n: nat, rest: int, top: bool, withTop: int)
    requires n == rest + (if top then 0x8000_0000 else 0) && 0 <= rest < 0x8000_0000 && withTop == rest + 0x8000_0000
    ensures (Marked(n) <==> top) && Mark(n) == withTop && Unmark(n) == rest
  {
  }

  lemma MarkIsTop(x: Word32, n: nat)
    requires n == x as int
    ensures (Marked(n) <==> Top(x)) && Mark(n) == WithTop(x) as int && Unmark(n) == Rest(x) as int
  {
    hide Top, Rest, WithTop, Mark, Unmark, Marked;
    TopNumber(x);
    TopNumber(WithTop(x));
    SetTop(x);
    MarkNumber(n, Rest(x) as int, Top(x), WithTop(x) as int);
  }

  lemma FieldIs(x: Word32)
    ensures Top(x) == (x & 0x8000_0000 != 0) && WithTop(x) == x | 0x8000_0000 && Rest(x) == x & 0x7FFF_FFFF
  {
  }

  /** Marking a number is setting the highest bit of its 32-bit field, and unmarking it is clearing that bit. */
  lemma MarkIsHighBit(x: Word32, n: nat)
    requires n == x as int
    ensures Marked(n) <==> x & 0x8000_0000 != 0
    ensures Mark(n) == (x | 0x8000_0000) as int
    ensures Unmark(n) == (x & 0x7FFF_FFFF) as int
  {
    hide Top, Rest, WithTop, Mark, Unmark, Marked;
    MarkIsTop(x, n);
    FieldIs(x);
  }

  /** Of a directory written back with n writes, exactly the first n blocks come from the buffer. */
  lemma {:induction false} BlocksAtCut(d: Disk, n: nat, s: Slot, buf: seq<Entry>, b: nat, k: nat)
    requires s in d.dirs && |buf| == |d.dirs[s].entries| && k < |buf|
    requires forall i :: 0 <= i < |buf| ==> d.dirs[s].entries[i].block == buf[i].block < d.dirs[s].blocks
    ensures var r := WriteBlocks(d, Writes(n), s, buf, b);
      && (r.status == Ok <==> b + n >= d.dirs[s].blocks) && r.status != Fatal
      && r.disk.dirs[s].entries[k] == if b <= buf[k].block < b + n then buf[k] else d.dirs[s].entries[k]
    decreases n
  {
    if b < d.dirs[s].blocks && n > 0 {
      var d' := d.(dirs := d.dirs[s := PutBlock(d.dirs[s], buf, b)]);
      BlocksAtCut(d', n - 1, s, buf, b + 1, k);
    }
  }

  /** Of the superblocks rewritten with n writes, a superblock and the descriptors behind it in turn, exactly the first
      (n + 1) / 2 are new; the copies are unlocked, the primary one stays as locked as it was. */
  lemma {:induction false} SupersAtCut(d: Disk, n: nat, newIpg: pos, i: nat, j: nat)
    requires i <= |d.sbs| && j < |d.sbs|
    ensures var r := UpdateSupers(d, Writes(n), newIpg, i);
      && (r.status == Ok <==> n >= 2 * (|d.sbs| - i)) && r.status != Fatal
      && r.disk.sbs[j] ==
        if i <= j && 2 * (j - i) < n then Super(newIpg, j == 0 && d.sbs[0].locked) else d.sbs[j]
    decreases n
  {
    if i < |d.sbs| && n > 1 {
      SupersAtCut(d.(sbs := d.sbs[i := Super(newIpg, i == 0 && d.sbs[0].locked)]), n - 2, newIpg, i + 1, j);
    }
  }

  /** Of a phase change with n writes, the first records the phase and the second locks or unlocks the file system. */
  lemma PhaseAtCut(d: Disk, n: nat, phase: Phase)
    requires |d.sbs| > 0
    ensures var r := SetPhase(d, Writes(n), phase);
      && (r.status == Ok <==> n >= 2) && r.status != Fatal
      && r.disk.phase == (if n >= 1 then phase else d.phase)
      && r.disk.sbs[0] == d.sbs[0].(locked := if n >= 2 then phase != Unset else d.sbs[0].locked)
      && forall j :: 0 < j < |d.sbs| ==> r.disk.sbs[j] == d.sbs[j]
  {
  }
}
