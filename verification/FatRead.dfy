/** Reading a range of the synthetic volume: the extents that overlap it, laid over zeros. */
module FatRead {
  import opened Arith
  import opened Bytes

  /** Where the bytes of an extent come from: a buffer in memory, read as zeros behind its end, or a file of the
      host, which either has the given content or fails with a code. */
  datatype Source = Memory(bytes: seq<byte>) | File(content: nat -> byte, code: int)

  datatype Extent = Extent(start: nat, len: nat, source: Source)

  /** The part of a requested range that an extent serves: `into` the buffer, from `off` on in the extent, n bytes. */
  datatype Part = Part(index: nat, into: nat, off: nat, n: nat)

  predicate Overlaps(e: Extent, start: nat, len: nat) {
    start < e.start + e.len && start + len > e.start
  }

  /** The extent covers the byte. */
  predicate Covers(e: Extent, x: nat) {
    e.start <= x < e.start + e.len
  }

  function ByteOf(s: Source, off: nat): byte {
    match s
    case Memory(bytes) => if off < |bytes| then bytes[off] else 0
    case File(content, _) => content(off)
  }

  predicate Fails(e: Extent) {
    e.source.File? && e.source.code != 0
  }

  /** The byte at x of the volume: of several extents covering it the one latest in the list counts, and a byte no
      extent covers is zero. `n` is how many extents of the list are taken into account. */
  function FlatByte(es: seq<Extent>, n: nat, x: nat): byte
    requires n <= |es|
  {
    if n == 0 then 0
    else if Covers(es[n - 1], x) then ByteOf(es[n - 1].source, x - es[n - 1].start)
    else FlatByte(es, n - 1, x)
  }

  /** The code of a read that looks at the extents from i on: that of the first overlapping one that fails. */
  function ReadCode(es: seq<Extent>, i: nat, start: nat, len: nat): int
    requires i <= |es|
    decreases |es| - i
  {
    if i == |es| then 0
    else if Overlaps(es[i], start, len) && Fails(es[i]) then es[i].source.code
    else ReadCode(es, i + 1, start, len)
  }

  /** Read a buffer of buf_len bytes, padded with zeros. */
  method BufferRead(src: seq<byte>, buf: array<byte>, at: nat, off: nat, len0: nat)
    requires at + len0 <= buf.Length
    modifies buf
    ensures forall k :: 0 <= k < buf.Length ==>
      buf[k] == if at <= k < at + len0 then ByteOf(Memory(src), off + (k - at)) else old(buf[k])
  {
    var len: nat := len0;
    if off >= |src| {
      forall k | at <= k < at + len { buf[k] := 0; }
      return;
    }
    if off + len > |src| {
      forall k | at + (|src| - off) <= k < at + len { buf[k] := 0; }
      len := |src| - off;
    }
    forall k | at <= k < at + len { buf[k] := src[off + (k - at)]; }
  }

  /** Read part of an extent; a failing file leaves the buffer alone. */
  method ExtentRead(e: Extent, buf: array<byte>, at: nat, off: nat, len: nat) returns (code: int)
    requires at + len <= buf.Length
    modifies buf
    ensures code == if Fails(e) then e.source.code else 0
    ensures forall k :: 0 <= k < buf.Length ==>
      buf[k] == if code == 0 && at <= k < at + len then ByteOf(e.source, off + (k - at)) else old(buf[k])
  {
    match e.source
    case Memory(bytes) =>
      BufferRead(bytes, buf, at, off, len);
      code := 0;
    case File(content, c) =>
      code := c;
      if c == 0 {
        forall k | at <= k < at + len { buf[k] := content(off + (k - at)); }
      }
  }

  /** p is the intersection of the range with the first overlapping extent from `from` on. */
  ghost predicate PartOf(es: seq<Extent>, start: nat, len: nat, from: nat, p: Part) {
    && from <= p.index < |es| && Overlaps(es[p.index], start, len)
    && (forall i :: from <= i < p.index ==> !Overlaps(es[i], start, len))
    && p.n > 0 && p.into + p.n <= len && p.off + p.n <= es[p.index].len
    && es[p.index].start + p.off == start + p.into
    && (forall x :: start <= x < start + len ==>
        (Covers(es[p.index], x) <==> start + p.into <= x < start + p.into + p.n))
  }

  /** The next extent, from index `from` on, that overlaps the range, and the exact intersection of the two. */
  method FindExtent(es: seq<Extent>, start: nat, len: nat, from: nat) returns (p: Option<Part>)
    requires from <= |es| && len > 0
    requires forall i :: 0 <= i < |es| ==> es[i].len > 0
    ensures p.None? ==> forall i :: from <= i < |es| ==> !Overlaps(es[i], start, len)
    ensures p.Some? ==> PartOf(es, start, len, from, p.value)
  {
    var end := start + len;
    for i := from to |es|
      invariant forall j :: from <= j < i ==> !Overlaps(es[j], start, len)
    {
      var e := es[i];
      var eEnd := e.start + e.len;
      if start < eEnd && end > e.start {
        var into: nat, off: nat, n: nat := 0, 0, 0;
        if e.start <= start {
          off := start - e.start;
          n := if end <= eEnd then len else eEnd - start;
        } else {
          into := e.start - start;
          n := if eEnd <= end then e.len else end - e.start;
        }
        assert off < e.len && off + n <= e.len && into < len && into + n <= len;
        return Some(Part(i, into, off, n));
      }
    }
    p := None;
  }

  /** Extents that do not overlap the range do not matter for its bytes. */
  lemma {:induction false} SkipExtents(es: seq<Extent>, i: nat, j: nat, start: nat, len: nat, x: nat)
    requires i <= j <= |es| && start <= x < start + len && forall k :: i <= k < j ==> !Overlaps(es[k], start, len)
    ensures FlatByte(es, j, x) == FlatByte(es, i, x)
    ensures ReadCode(es, i, start, len) == ReadCode(es, j, start, len)
    decreases j - i
  {
    if i < j {
      SkipExtents(es, i, j - 1, start, len, x);
      assert !Covers(es[j - 1], x);
    }
  }

  /** Read len bytes from `start` on. Unless an extent in the range fails, the buffer holds the bytes of the volume. */
  method FsRead(es: seq<Extent>, buf: array<byte>, start: nat, len: nat) returns (code: int)
    requires len > 0 && buf.Length == len && forall i :: 0 <= i < |es| ==> es[i].len > 0
    modifies buf
    ensures code == ReadCode(es, 0, start, len)
    ensures code == 0 ==> forall k :: 0 <= k < len ==> buf[k] == FlatByte(es, |es|, start + k)
  {
    hide ByteOf, Covers, Overlaps;
    forall k | 0 <= k < len { buf[k] := 0; }
    var next: nat := 0;
    var p := FindExtent(es, start, len, next);
    while p.Some?
      invariant next <= |es| && ReadCode(es, 0, start, len) == ReadCode(es, next, start, len)
      invariant forall k :: 0 <= k < len ==> buf[k] == FlatByte(es, next, start + k)
      invariant p.None? ==> forall i :: next <= i < |es| ==> !Overlaps(es[i], start, len)
      invariant p.Some? ==> PartOf(es, start, len, next, p.value)
      decreases |es| - next, p.Some?
    {
      var q := p.value;
      forall k | 0 <= k < len
        ensures buf[k] == FlatByte(es, q.index, start + k)
          && ReadCode(es, 0, start, len) == ReadCode(es, q.index, start, len)
      {
        SkipExtents(es, next, q.index, start, len, start + k);
      }
      assert ReadCode(es, 0, start, len) == ReadCode(es, q.index, start, len) by {
        SkipExtents(es, next, q.index, start, len, start);
      }
      code := ExtentRead(es[q.index], buf, q.into, q.off, q.n);
      if code != 0 { return; }
      next := q.index + 1;
      p := FindExtent(es, start, len, next);
    }
    forall k | 0 <= k < len
      ensures buf[k] == FlatByte(es, |es|, start + k)
    {
      SkipExtents(es, next, |es|, start, len, start + k);
    }
    SkipExtents(es, next, |es|, start, len, start);
    code := 0;
  }

  // ----- what the specification of a read means

  /** An extent and a range overlap exactly when the extent covers a byte of the range. */
  lemma OverlapsExactly(e: Extent, start: nat, len: nat)
    requires e.len > 0 && len > 0
    ensures Overlaps(e, start, len) <==> exists x: nat :: start <= x < start + len && Covers(e, x)
  {
    if Overlaps(e, start, len) {
      var x := if e.start <= start then start else e.start;
      assert start <= x < start + len && Covers(e, x);
    }
  }

  /** A byte no extent covers is zero. */
  lemma {:induction false} UncoveredIsZero(es: seq<Extent>, n: nat, x: nat)
    requires n <= |es| && forall i :: 0 <= i < n ==> !Covers(es[i], x)
    ensures FlatByte(es, n, x) == 0
  {
    hide ByteOf, Covers;
    if n > 0 { UncoveredIsZero(es, n - 1, x); }
  }

  /** Any other byte is one of the last extent that covers it. */
  lemma {:induction false} LastCoversIt(es: seq<Extent>, n: nat, i: nat, x: nat)
    requires i < n <= |es| && Covers(es[i], x) && forall j :: i < j < n ==> !Covers(es[j], x)
    ensures FlatByte(es, n, x) == ByteOf(es[i].source, x - es[i].start)
  {
    hide ByteOf;
    if i < n - 1 { LastCoversIt(es, n - 1, i, x); }
  }

  /** A buffer reads as itself with zeros behind it, a file of the host as its content. */
  lemma BytesAre(s: Source, off: nat)
    ensures s.Memory? && off < |s.bytes| ==> ByteOf(s, off) == s.bytes[off]
    ensures s.Memory? && off >= |s.bytes| ==> ByteOf(s, off) == 0
    ensures s.File? ==> ByteOf(s, off) == s.content(off)
  {
  }

  /** Extent k is in the range, and is a file of the host that fails. */
  ghost predicate FailsAt(es: seq<Extent>, k: nat, start: nat, len: nat)
    requires k < |es|
  {
    Overlaps(es[k], start, len) && es[k].source.File? && es[k].source.code != 0
  }

  /** A read fails exactly when a file in the range does. */
  lemma {:induction false} ReadCodeIs(es: seq<Extent>, i: nat, start: nat, len: nat)
    requires i <= |es|
    ensures ReadCode(es, i, start, len) == 0 <==> forall k: nat | i <= k < |es| :: !FailsAt(es, k, start, len)
    decreases |es| - i
  {
    hide Overlaps;
    if i < |es| {
      ReadCodeIs(es, i + 1, start, len);
      if FailsAt(es, i, start, len) { assert ReadCode(es, i, start, len) == es[i].source.code; }
    }
  }

  /** Its code is that of the first one in the list. */
  lemma {:induction false} FirstFailureCounts(es: seq<Extent>, i: nat, k: nat, start: nat, len: nat)
    requires i <= k < |es| && FailsAt(es, k, start, len)
    requires forall j: nat | i <= j < k :: !FailsAt(es, j, start, len)
    ensures ReadCode(es, i, start, len) == es[k].source.code
    decreases |es| - i
  {
    hide Overlaps;
    if i < k {
      assert !FailsAt(es, i, start, len);
      FirstFailureCounts(es, i + 1, k, start, len);
    }
  }
}
