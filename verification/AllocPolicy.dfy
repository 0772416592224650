/** Which groups serve a request: the first group with room for all of it, else untouched groups whole and in order,
    and the first group with room for what is left. */
module AllocPolicy {
  import opened Arith
  import opened Allocator

  /** The region is at the front of the free interval of a group, and no group before that one has as many free
      blocks. */
  ghost predicate FirstWithRoom(v: seq<View>, r: Region) {
    && r.bg < |v| && r.len <= v[r.bg].free
    && r.block == v[r.bg].firstBlock + v[r.bg].firstFree
    && forall j: nat | j < r.bg :: v[j].free < r.len
  }

  /** The region is the whole free interval of a group without data blocks, and no group before that one is without. */
  ghost predicate WholeUntouched(v: seq<View>, r: Region) {
    && r.bg < |v| && v[r.bg].used == 0 && r.len == v[r.bg].free > 0
    && r.block == v[r.bg].firstBlock + v[r.bg].firstFree
    && forall j: nat | j < r.bg :: v[j].used > 0
  }

  /** How region k of an answer was chosen, when v is what the regions before it left. */
  ghost predicate Chosen(v: seq<View>, rs: seq<Region>, k: nat, ok: bool)
    requires k < |rs|
  {
    if ok && k == |rs| - 1 then FirstWithRoom(v, rs[k]) else WholeUntouched(v, rs[k])
  }

  lemma ContiguousIs(v: seq<View>, len: nat)
    ensures match Contiguous(v, len)
      case None => forall j: nat | j < |v| :: v[j].free < len
      case Some(r) => r.len == len && FirstWithRoom(v, r)
  {
  }

  lemma UntouchedIs(v: seq<View>)
    ensures var k := FirstUntouched(v, 0);
      (forall j: nat | j < k :: v[j].used > 0) && (k < |v| ==> v[k].used == 0)
  {
    NoneBeforeFirst(v, FirstUntouched(v, 0));
  }

  /** One round: the rest of the request in the first group with room for it, or the first untouched group whole. */
  lemma PartialIs(v: seq<View>, len: nat)
    ensures match Partial(v, len)
      case None => forall j: nat | j < |v| :: v[j].used > 0
      case Some(r) => if r.len == len then FirstWithRoom(v, r) else r.len < len && (r.len > 0 ==> WholeUntouched(v, r))
  {
    UntouchedIs(v);
    ContiguousIs(v, len);
  }

  lemma {:induction false} MultipleChosen(v: seq<View>, len: nat, k: nat)
    requires Ends(v, len) && k < |Multiple(v, len).0|
    ensures var (rs, ok) := Multiple(v, len); AllFit(v, rs[..k]) && Chosen(TakeAll(v, rs[..k]), rs, k, ok)
    decreases len
  {
    hide Ends, Partial, Take, Fits, FirstWithRoom, WholeUntouched;
    MultipleSome(v, len);
    MultipleStep(v, len);
    PartialIs(v, len);
    var r := Partial(v, len).value;
    var w, left := Take(v, r), len - r.len;
    var (rs, ok) := Multiple(v, len);
    var (rest, done) := Multiple(w, left);
    assert rs[1..] == rest;
    if k > 0 {
      MultipleChosen(w, left, k - 1);
      assert rs[..k][0] == r && rs[..k][1..] == rest[..k - 1];
    } else if left == 0 {
      MultipleNone(w);
    } else {
      MultipleIsExact(w, left);
    }
  }

  lemma MultipleSome(v: seq<View>, len: nat)
    requires Ends(v, len) && Multiple(v, len).0 != []
    ensures len > 0 && Partial(v, len).Some?
  {
    hide Partial, Take, Ends;
    if len > 0 { MultipleStep(v, len); }
  }

  /** Region k of an answered request, in what the regions before it left: the last one, when the request was served,
      comes from the first group with room for the rest; every other one is the first untouched group, whole. */
  lemma RegionsAreChosen(v: seq<View>, len: nat, k: nat)
    requires Answered(v, len) && k < |DoAllocate(v, len).0|
    ensures var (rs, ok) := DoAllocate(v, len); AllFit(v, rs[..k]) && Chosen(TakeAll(v, rs[..k]), rs, k, ok)
  {
    hide Ends, Take, Chosen, Contiguous;
    ContiguousIs(v, len);
    match Contiguous(v, len)
    case Some(r) =>
      assert [r][..0] == [];
      SingleChosen(v, r);
    case None =>
      MultipleChosen(v, len, k);
  }

  lemma SingleChosen(v: seq<View>, r: Region)
    requires FirstWithRoom(v, r)
    ensures Chosen(v, [r], 0, true)
  {
  }

  /** A request that some group has room for is served in one region. */
  lemma OneRegionWhenItFits(v: seq<View>, len: nat, g: nat)
    requires g < |v| && len <= v[g].free
    ensures Answered(v, len)
    ensures var (rs, ok) := DoAllocate(v, len); ok && |rs| == 1 && rs[0].len == len && rs[0].bg <= g
  {
    ContiguousIs(v, len);
  }

  // ----- when a request is served

  lemma {:induction false} NoneUntouched(v: seq<View>, n: nat)
    requires n <= |v| && forall j: nat | j < n :: v[j].used > 0
    ensures UntouchedFree(v, n) == 0
  {
    if n > 0 { NoneUntouched(v, n - 1); }
  }

  lemma MultipleSucceedsOne(v: seq<View>, len: nat)
    requires Ends(v, len) && len > 0
    ensures match Partial(v, len)
      case None => UntouchedFree(v, |v|) == 0
      case Some(r) =>
        && Fits(v, r) && 0 < r.len <= len
        && (r.len == len ==> UntouchedFree(v, |v|) >= len)
        && (r.len < len ==> UntouchedFree(Take(v, r), |v|) + r.len == UntouchedFree(v, |v|))
  {
    hide UntouchedFree, Contiguous, Ends;
    RoundKeepsEnds(v, len);
    UntouchedIs(v);
    ContiguousIs(v, len);
    var k := FirstUntouched(v, 0);
    if k == |v| {
      NoneUntouched(v, k);
    } else {
      UntouchedFreeGrows(v, k, |v|);
      ChosenFits(v, len);
      RoundTakes(v, len);
      if len > v[k].free { UsedUp(v, k, Take(v, Partial(v, len).value)[k], |v|); }
    }
  }

  lemma RoundTakes(v: seq<View>, len: nat)
    requires Ends(v, len) && len > 0
    ensures Partial(v, len).Some? ==> Partial(v, len).value.len > 0
  {
    hide Ends, Partial, Take, Fits;
    MultipleStep(v, len);
  }

  lemma {:induction false} MultipleSucceeds(v: seq<View>, len: nat)
    requires Ends(v, len)
    ensures Multiple(v, len).1 <==> UntouchedFree(v, |v|) >= len
    decreases len
  {
    hide Ends, Partial, Take, Fits, UntouchedFree;
    if len == 0 {
      MultipleNone(v);
    } else {
      MultipleStep(v, len);
      MultipleSucceedsOne(v, len);
      match Partial(v, len)
      case None =>
      case Some(r) =>
        MultipleSucceeds(Take(v, r), len - r.len);
        if r.len == len { MultipleNone(Take(v, r)); }
    }
  }

  /** A request is served exactly when one group has room for it or the untouched groups together have. */
  lemma ServedExactly(v: seq<View>, len: nat)
    requires Answered(v, len)
    ensures DoAllocate(v, len).1 <==>
            (exists g: nat :: g < |v| && v[g].free >= len) || UntouchedFree(v, |v|) >= len
  {
    hide UntouchedFree, Ends, Contiguous;
    ContiguousIs(v, len);
    match Contiguous(v, len)
    case Some(r) => assert v[r.bg].free >= len;
    case None => MultipleSucceeds(v, len);
  }

  // ----- what the counts count

  /** The free total is zero exactly when no group has a free block. */
  lemma {:induction false} NothingFree(v: seq<View>)
    ensures TotalFree(v) == 0 <==> forall g :: 0 <= g < |v| ==> v[g].free == 0
  {
    if v != [] {
      NothingFree(v[1..]);
      if forall g :: 0 <= g < |v[1..]| ==> v[1..][g].free == 0 {
        assert forall g :: 1 <= g < |v| ==> v[g] == v[1..][g - 1];
      }
    }
  }

  function UntouchedSet(v: seq<View>): set<nat> {
    set g: nat | g < |v| && v[g].used == 0
  }

  /** The number of untouched groups. */
  lemma {:induction false} UntouchedCountIs(v: seq<View>)
    ensures UntouchedCount(v) == |UntouchedSet(v)|
    decreases |v|
  {
    if v == [] {
      assert UntouchedSet(v) == {};
    } else {
      var n: nat := |v| - 1;
      var front := v[..n];
      UntouchedCountIs(front);
      CountAppends(front, v[n]);
      assert front + [v[n]] == v;
      assert UntouchedSet(v) == if v[n].used == 0 then UntouchedSet(front) + {n} else UntouchedSet(front);
    }
  }

  lemma {:induction false} CountAppends(v: seq<View>, w: View)
    ensures UntouchedCount(v + [w]) == UntouchedCount(v) + if w.used == 0 then 1 else 0
  {
    if v == [] {
      assert [w][1..] == [];
    } else {
      assert (v + [w])[1..] == v[1..] + [w];
      CountAppends(v[1..], w);
    }
  }
}
