/** The pool of open files: a circular doubly linked list that keeps the four files opened last. */
module FdPool {
  import opened Arith

  const INVALID: int := -1
  const SIZE: nat := 4

  // ----- the order of use

  function Without<T(==)>(s: seq<T>, x: T): (r: seq<T>)
    ensures |r| <= |s|
  {
    if s == [] then [] else if s[0] == x then Without(s[1..], x) else [s[0]] + Without(s[1..], x)
  }

  function Front<T>(s: seq<T>, n: nat): seq<T> {
    if |s| <= n then s else s[..n]
  }

  /** The pool after a file was opened: newest first, never more than SIZE. */
  function Opened<T(==)>(order: seq<T>, x: T): seq<T> {
    Front([x] + Without(order, x), SIZE)
  }

  ghost predicate Distinct<T>(s: seq<T>) {
    forall i, j :: 0 <= i < j < |s| ==> s[i] != s[j]
  }

  /** The pool after a series of successful opens. */
  function AfterOpens<T(==)>(opens: seq<T>): seq<T> {
    if opens == [] then [] else Opened(AfterOpens(opens[..|opens| - 1]), opens[|opens| - 1])
  }

  /** The position of the last open of x. */
  function LastOpen<T(==)>(opens: seq<T>, x: T): (k: nat)
    requires x in opens
    ensures k < |opens| && opens[k] == x && forall j :: k < j < |opens| ==> opens[j] != x
  {
    if opens[|opens| - 1] == x then |opens| - 1 else LastOpen(opens[..|opens| - 1], x)
  }

  /** The files opened after place k. */
  ghost function OpenedSince<T>(opens: seq<T>, k: nat): set<T>
    requires k < |opens|
  {
    set j | k < j < |opens| :: opens[j]
  }

  lemma {:induction false} WithoutNone<T>(s: seq<T>, x: T)
    requires x !in s
    ensures Without(s, x) == s
  {
    if s != [] { WithoutNone(s[1..], x); }
  }

  lemma {:induction false} WithoutAt<T>(s: seq<T>, x: T, k: nat)
    requires Distinct(s) && k < |s| && s[k] == x
    ensures Without(s, x) == s[..k] + s[k + 1..]
  {
    if k == 0 {
      WithoutNone(s[1..], x);
    } else {
      var t := s[1..];
      assert forall i, j :: 0 <= i < j < |t| ==> t[i] == s[i + 1] && t[j] == s[j + 1];
      WithoutAt(t, x, k - 1);
      assert t[k..] == s[k + 1..] && [s[0]] + t[..k - 1] == s[..k];
    }
  }

  /** Opening a file that is not in the pool. */
  lemma OpenedNew<T>(q: seq<T>, y: T)
    requires y !in q
    ensures Opened(q, y) == Front([y] + q, SIZE)
  {
    WithoutNone(q, y);
  }

  /** Opening the file at place k of the pool. */
  lemma OpenedKnown<T>(q: seq<T>, y: T, k: nat)
    requires Distinct(q) && |q| <= SIZE && k < |q| && q[k] == y
    ensures Opened(q, y) == [y] + q[..k] + q[k + 1..]
  {
    WithoutAt(q, y, k);
    assert [y] + q[..k] + q[k + 1..] == [y] + (q[..k] + q[k + 1..]);
  }

  /** Distinct files, each opened, the later opened first. */
  ghost predicate NewestFirst<T>(opens: seq<T>, p: seq<T>) {
    && Distinct(p) && |p| <= SIZE
    && (forall i :: 0 <= i < |p| ==> p[i] in opens)
    && (forall i, j :: 0 <= i < j < |p| ==> LastOpen(opens, p[i]) > LastOpen(opens, p[j]))
  }

  /** The place in the pool before of what is at place i > 0 after an open; k is where the file opened was. */
  function Before(i: nat, k: nat): nat
    requires i > 0
  {
    if i <= k then i - 1 else i
  }

  /** Opening y puts it first and keeps the order of the others; k is the place y had, or the size of the pool. */
  lemma OpenedAt<T>(q: seq<T>, y: T, k: nat)
    requires Distinct(q) && |q| <= SIZE && k <= |q| && (if k < |q| then q[k] == y else y !in q)
    ensures var p := Opened(q, y);
      && |p| == (if k < |q| then |q| else Min(|q| + 1, SIZE)) && p[0] == y
      && forall i: nat :: 0 < i < |p| ==> Before(i, k) < |q| && p[i] == q[Before(i, k)] && p[i] != y
  {
    if k < |q| { OpenedKnown(q, y, k); } else { OpenedNew(q, y); }
  }

  lemma StepNewest<T>(front: seq<T>, q: seq<T>, y: T)
    requires NewestFirst(front, q)
    ensures NewestFirst(front + [y], Opened(q, y))
  {
    hide Opened, LastOpen;
    var k := if y in q then IndexOf(q, y) else |q|;
    OpenedAt(q, y, k);
    var opens, p := front + [y], Opened(q, y);
    LastIsNewest(front, y);
    forall i | 0 <= i < |p|
      ensures p[i] in opens
      ensures i > 0 ==> p[i] in front && LastOpen(opens, p[i]) == LastOpen(front, p[i])
    {
      if i > 0 { SinceGrows(front, y, p[i]); }
    }
    forall i, j | 0 <= i < j < |p|
      ensures p[i] != p[j] && LastOpen(opens, p[i]) > LastOpen(opens, p[j])
    {
      if i > 0 { assert Before(i, k) < Before(j, k); }
    }
  }

  ghost function IndexOf<T>(q: seq<T>, y: T): (k: nat)
    requires y in q
    ensures k < |q| && q[k] == y
  {
    var k :| 0 <= k < |q| && q[k] == y;
    k
  }

  lemma LastIsNewest<T>(front: seq<T>, y: T)
    ensures LastOpen(front + [y], y) == |front|
  {
  }

  /** After any series of opens the pool lists at most 4 distinct files, the later opened first. */
  lemma {:induction false} PoolIsNewestFirst<T>(opens: seq<T>)
    ensures NewestFirst(opens, AfterOpens(opens)) && |AfterOpens(opens)| <= 4
    decreases |opens|
  {
    hide Opened, LastOpen;
    if opens != [] {
      var n := |opens| - 1;
      PoolIsNewestFirst(opens[..n]);
      StepNewest(opens[..n], AfterOpens(opens[..n]), opens[n]);
      assert opens[..n] + [opens[n]] == opens;
    }
  }

  ghost function Elems<T>(s: seq<T>): set<T> {
    set x | x in s
  }

  lemma {:induction false} ElemsCount<T>(s: seq<T>)
    requires Distinct(s)
    ensures |Elems(s)| == |s|
  {
    if s != [] {
      ElemsCount(s[1..]);
      assert s[0] !in s[1..];
      assert Elems(s) == {s[0]} + Elems(s[1..]);
    }
  }

  /** The files opened since the last open of x: those ahead of it in the pool, or, when it is not there any more,
      at least all of a full pool. */
  ghost predicate Standing<T>(opens: seq<T>, p: seq<T>, x: T)
    requires x in opens
  {
    var since := OpenedSince(opens, LastOpen(opens, x));
    if x in p then exists i :: 0 <= i < |p| && p[i] == x && since == Elems(p[..i])
    else |p| == SIZE && Elems(p) <= since
  }

  lemma SinceGrows<T>(front: seq<T>, y: T, x: T)
    requires x in front && x != y
    ensures x in front + [y] && LastOpen(front + [y], x) == LastOpen(front, x)
    ensures OpenedSince(front + [y], LastOpen(front, x)) == OpenedSince(front, LastOpen(front, x)) + {y}
  {
    var opens, k := front + [y], LastOpen(front, x);
    assert opens[..|front|] == front;
    assert opens[|front|] == y;
    forall z | z in OpenedSince(front, k) + {y}
      ensures z in OpenedSince(opens, k)
    {
      if z in OpenedSince(front, k) {
        var j :| k < j < |front| && front[j] == z;
        assert opens[j] == z;
      }
    }
    forall z | z in OpenedSince(opens, k)
      ensures z in OpenedSince(front, k) + {y}
    {
      var j :| k < j < |opens| && opens[j] == z;
      if j < |front| { assert front[j] == z; }
    }
  }

  lemma ElemsCons<T>(y: T, s: seq<T>)
    ensures Elems([y] + s) == Elems(s) + {y}
  {
    assert forall z :: z in [y] + s <==> z == y || z in s;
  }

  lemma ElemsJoin<T>(s: seq<T>, t: seq<T>)
    ensures Elems(s + t) == Elems(s) + Elems(t)
  {
    assert forall z :: z in s + t <==> z in s || z in t;
  }

  /** An open of a file ahead of place i reorders what is ahead of it. */
  lemma AheadReordered<T>(q: seq<T>, y: T, i: nat, k: nat)
    requires Distinct(q) && |q| <= SIZE && k < i < |q| && q[k] == y
    ensures var p := Opened(q, y); |p| == |q| && p[i] == q[i] && Elems(p[..i]) == Elems(q[..i])
  {
    hide Opened, Elems;
    OpenedKnown(q, y, k);
    var p, a, b := Opened(q, y), q[..k], q[k + 1..i];
    assert p[i] == q[i];
    assert p[..i] == [y] + (a + b);
    assert q[..i] == a + ([y] + b);
    ElemsCons(y, a + b);
    ElemsJoin(a, b);
    ElemsCons(y, b);
    ElemsJoin(a, [y] + b);
  }

  /** An open of a file behind place i moves the file there one place back. */
  lemma BehindMoves<T>(q: seq<T>, y: T, i: nat, k: nat)
    requires Distinct(q) && |q| <= SIZE && i < k < |q| && q[k] == y
    ensures var p := Opened(q, y); |p| == |q| && p[i + 1] == q[i] && Elems(p[..i + 1]) == Elems(q[..i]) + {y}
  {
    hide Opened, Elems;
    OpenedKnown(q, y, k);
    ElemsCons(y, q[..i]);
    assert Opened(q, y)[..i + 1] == [y] + q[..i];
  }

  /** So does the open of a file that was not in the pool, and the last file of a full pool leaves it. */
  lemma NewMoves<T>(q: seq<T>, y: T, i: nat)
    requires Distinct(q) && |q| <= SIZE && i < |q| && y !in q
    ensures var p, x := Opened(q, y), q[i];
      && i < |p| && Elems(p[..i + 1]) == Elems(q[..i]) + {y}
      && if i + 1 < SIZE then i + 1 < |p| && p[i + 1] == x else x !in p && |p| == SIZE && p[..i + 1] == p
  {
    hide Opened, Elems;
    OpenedNew(q, y);
    ElemsCons(y, q[..i]);
    var p := Opened(q, y);
    assert p[..i + 1] == [y] + q[..i];
    if i + 1 == SIZE {
      forall j | 0 <= j < |p|
        ensures p[j] != q[i]
      {
        if j > 0 { assert p[j] == q[j - 1]; }
      }
    }
  }

  /** One more open, seen from a file that was in the pool at place i. */
  lemma StandingMoves<T>(q: seq<T>, y: T, i: nat, k: nat)
    requires Distinct(q) && |q| <= SIZE && i < |q| && q[i] != y && k <= |q| && (if k < |q| then q[k] == y else y !in q)
    ensures var p, x := Opened(q, y), q[i];
      if k < i then i < |p| && p[i] == x && Elems(p[..i]) == Elems(q[..i])
      else if i + 1 < SIZE then i + 1 < |p| && p[i + 1] == x && Elems(p[..i + 1]) == Elems(q[..i]) + {y}
      else x !in p && |p| == SIZE && Elems(p) == Elems(q[..i]) + {y}
  {
    hide Opened, Elems, Distinct;
    if k < i {
      AheadReordered(q, y, i, k);
    } else if k < |q| {
      BehindMoves(q, y, i, k);
    } else {
      NewMoves(q, y, i);
    }
  }

  lemma {:induction false} EveryFileStands<T>(opens: seq<T>, x: T)
    requires x in opens
    ensures Standing(opens, AfterOpens(opens), x)
    decreases |opens|
  {
    hide Opened, LastOpen, OpenedSince, Elems;
    var n := |opens| - 1;
    var front, y := opens[..n], opens[n];
    var q := AfterOpens(front);
    assert opens == front + [y];
    PoolIsNewestFirst(front);
    OpenedAt(q, y, if y in q then IndexOf(q, y) else |q|);
    if x == y {
      NewestStands(front, AfterOpens(opens), y);
    } else {
      EveryFileStands(front, x);
      OneMoreOpen(front, q, y, x);
    }
  }

  lemma OneMoreOpen<T>(front: seq<T>, q: seq<T>, y: T, x: T)
    requires x in front && x != y && Distinct(q) && |q| <= SIZE && Standing(front, q, x)
    ensures Standing(front + [y], Opened(q, y), x)
  {
    hide Opened, LastOpen, OpenedSince;
    SinceGrows(front, y, x);
    var k := if y in q then IndexOf(q, y) else |q|;
    OpenedAt(q, y, k);
    if x in q {
      var i :| 0 <= i < |q| && q[i] == x && OpenedSince(front, LastOpen(front, x)) == Elems(q[..i]);
      StandingMoves(q, y, i, k);
      if k < i {
        assert q[..i][k] == y;
        assert Opened(q, y)[i] == x && Elems(Opened(q, y)[..i]) == Elems(q[..i]) + {y};
      } else if i + 1 < SIZE {
        assert Opened(q, y)[i + 1] == x;
      }
    } else {
      forall z | z in Opened(q, y)
        ensures z in q || z == y
      {
        var i :| 0 <= i < |Opened(q, y)| && Opened(q, y)[i] == z;
      }
    }
  }

  lemma NewestStands<T>(front: seq<T>, p: seq<T>, y: T)
    requires p != [] && p[0] == y
    ensures Standing(front + [y], p, y)
  {
    hide LastOpen;
    LastIsNewest(front, y);
    assert OpenedSince(front + [y], |front|) == {};
    assert Elems(p[..0]) == {};
  }

  /** A file opened before is in the pool exactly while fewer than 4 other files were opened since. */
  lemma PoolHoldsNewest<T>(opens: seq<T>, x: T)
    requires x in opens
    ensures x in AfterOpens(opens) <==> |OpenedSince(opens, LastOpen(opens, x))| < 4
  {
    var p, since := AfterOpens(opens), OpenedSince(opens, LastOpen(opens, x));
    EveryFileStands(opens, x);
    PoolIsNewestFirst(opens);
    if x in p {
      var i :| 0 <= i < |p| && p[i] == x && since == Elems(p[..i]);
      ElemsCount(p[..i]);
    } else {
      ElemsCount(p);
      SubsetCount(Elems(p), since);
    }
  }

  lemma SubsetCount<T>(a: set<T>, b: set<T>)
    requires a <= b
    ensures |a| <= |b|
  {
    assert b == a + (b - a);
  }

  // ----- the list

  class Node {
    var prev: Node?
    var next: Node?
    var fd: int

    /** A file that is not open. */
    constructor ()
      ensures fd == INVALID && prev == null && next == null
    {
      fd, prev, next := INVALID, null, null;
    }
  }

  class Pool {
    const head: Node
    var count: nat
    /** The files in the pool, newest first, and all files that may be opened through it. */
    ghost var order: seq<Node>
    ghost var files: set<Node>
    /** The files of all successful opens so far. */
    ghost var opens: seq<Node>

    ghost function Ring(): (r: seq<Node>)
      reads this`order
    {
      RingOf(head, order)
    }

    /** The pointers lead around the ring in both directions. */
    ghost predicate Linked()
      reads this`order, this`files, files, head
    {
      && head !in order && Distinct(order) && (forall i :: 0 <= i < |order| ==> order[i] in files)
      && (forall i :: 0 <= i <= |order| ==> Joined(i))
    }

    /** The i-th node of the ring and the one behind it point at each other. */
    ghost predicate Joined(i: nat)
      requires i <= |order|
      reads this`order, this`files, files, head
    {
      InRange(Ring()[i]) && InRange(Ring()[i + 1]) && Edge(Ring()[i], Ring()[i + 1])
    }

    ghost predicate InRange(n: Node)
      reads this`files
    {
      n == head || n in files
    }

    /** Exactly the files in the list are open, and the list is as long as the count says. */
    ghost predicate Valid()
      reads this`order, this`files, this`count, files, head
    {
      && head !in files && Linked() && count == |order| <= SIZE
      && (forall n :: n in files ==> n.fd >= INVALID && (n in order <==> n.fd != INVALID))
      && (forall n :: n in files && n !in order ==> n.prev == null && n.next == null)
    }

    /** The list is what the opens so far leave in the pool. */
    ghost predicate Traced()
      reads this`order, this`opens
    {
      order == AfterOpens(opens)
    }

    constructor (all: set<Node>)
      requires forall n :: n in all ==> n.fd == INVALID && n.prev == null && n.next == null
      ensures Valid() && Traced() && opens == [] && files == all && fresh(head)
    {
      head := new Node();
      count := 0;
      order, files, opens := [], all, [];
      new;
      head.prev, head.next := head, head;
    }

    /** Link a node behind the sentinel. */
    method InsertHead(node: Node)
      requires Linked() && head !in files && node in files && node !in order
      modifies this`count, this`order, head, files
      ensures Linked() && order == [node] + old(order) && count == old(count) + 1
      ensures forall n :: n in files ==> n.fd == old(n.fd)
      ensures forall n :: n in files && n !in order ==> n.prev == old(n.prev) && n.next == old(n.next)
    {
      ghost var ring, n := Ring(), |order|;
      RingNodes(head, order);
      var prev := head;
      var next := prev.next;
      assert Joined(0);
      prev.next := node;
      node.prev := prev;
      node.next := next;
      next.prev := node;
      count := count + 1;
      order := [node] + order;
      RingNodes(head, order);
      forall i | 0 <= i <= |order|
        ensures Joined(i)
      {
        if i >= 2 {
          assert Ring()[i] == ring[i - 1] && Ring()[i + 1] == ring[i];
          assert old(Joined(i - 1));
        }
      }
    }

    /** Unlink the node at place k of the list. */
    method Remove(node: Node, ghost k: nat)
      requires Linked() && head !in files && k < |order| && order[k] == node && count > 0
      modifies this`count, this`order, head, files
      ensures Linked() && order == old(order[..k] + order[k + 1..]) && count == old(count) - 1
      ensures forall n :: n in files ==> n.fd == old(n.fd)
      ensures forall n :: n in files && n !in old(order) ==> n.prev == old(n.prev) && n.next == old(n.next)
    {
      ghost var ring, n := Ring(), |order|;
      RingNodes(head, order);
      assert Joined(k) && Joined(k + 1);
      var prev := node.prev;
      var next := node.next;
      prev.next := next;
      next.prev := prev;
      count := count - 1;
      order := order[..k] + order[k + 1..];
      ShorterRing(head, old(order), k);
      forall i | 0 <= i <= |order|
        ensures Joined(i)
      {
        if i < k {
          assert old(Joined(i));
        } else if i > k {
          assert old(Joined(i + 1));
        }
      }
    }

    /** Forget a file that has been unlinked. */
    method Clear(node: Node)
      modifies node
      ensures node.fd == INVALID && node.prev == null && node.next == null
    {
      node.fd := INVALID;
      node.prev, node.next := null, null;
    }

    /** Close the file used least recently: it is unlinked, closed and forgotten. */
    method Evict()
      requires Valid() && count > 0
      modifies this`count, this`order, head, files
      ensures Valid() && order == old(order[..|order| - 1])
      ensures old(order)[old(|order|) - 1].fd == INVALID
      ensures forall n :: n in files && n != old(order)[old(|order|) - 1] ==> n.fd == old(n.fd)
    {
      ghost var k := |order| - 1;
      RingNodes(head, order);
      assert Joined(k + 1);
      var tail := head.prev;
      assert tail == order[k];
      Remove(tail, k);
      assert order == old(order[..k]);
      assert tail !in order;
      RingNodes(head, order);
      label Unlinked:
      Clear(tail);
      forall i | 0 <= i <= |order|
        ensures Joined(i)
      {
        assert old@Unlinked(Joined(i));
      }
    }

    /** Put a file that was just opened in front, making room for it first. */
    method Pooled(node: Node, fd: int)
      requires Valid() && node in files && node !in order && fd >= 0
      modifies this`count, this`order, head, files
      ensures Valid() && order == Front([node] + old(order), SIZE) && node.fd == fd
      ensures forall n :: n in files && n in order && n != node ==> n.fd == old(n.fd)
    {
      ghost var was := order;
      if count >= SIZE {
        Evict();
        assert [node] + was[..SIZE - 1] == ([node] + was)[..SIZE];
      }
      InsertHead(node);
      label Inserted:
      node.fd := fd;
      forall i | 0 <= i <= |order|
        ensures Joined(i)
      {
        assert old@Inserted(Joined(i));
      }
    }

    /** Open a file: one in the pool is moved to the front; another is opened by the system, which answers `result`,
        and pooled if that worked. */
    method Open(node: Node, result: int) returns (fd: int)
      requires Valid() && Traced() && node in files && result >= INVALID
      modifies this`count, this`order, this`opens, head, files
      ensures Valid() && Traced()
      ensures fd == if old(node in order) then old(node.fd) else result
      ensures opens == if fd >= 0 then old(opens) + [node] else old(opens)
      ensures order == if fd >= 0 then Opened(old(order), node) else old(order)
      ensures node in order ==> node.fd == fd
      ensures forall n :: n in files && n in order && n != node ==> n.fd == old(n.fd)
    {
      hide Opened, Without, AfterOpens, Linked;
      OneOpenMore(opens, node);
      NamesDistinct();
      if node.fd != INVALID {
        ghost var k := IndexOf(order, node);
        OpenedKnown(order, node, k);
        assert [node] + (order[..k] + order[k + 1..]) == [node] + order[..k] + order[k + 1..];
        Touch(node, k);
        opens := opens + [node];
        return node.fd;
      }
      fd := result;
      if fd >= 0 {
        OpenedNew(order, node);
        Pooled(node, fd);
        opens := opens + [node];
      }
    }

    lemma NamesDistinct()
      requires Linked()
      ensures Distinct(order)
    {
    }

    method Touch(node: Node, ghost k: nat)
      requires Valid() && k < |order| && order[k] == node
      modifies this`count, this`order, head, files
      ensures Valid() && order == [node] + old(order[..k] + order[k + 1..])
      ensures forall n :: n in files ==> n.fd == old(n.fd)
    {
      Remove(node, k);
      InsertHead(node);
    }
  }

  lemma OneOpenMore<T>(opens: seq<T>, x: T)
    ensures AfterOpens(opens + [x]) == Opened(AfterOpens(opens), x)
  {
    assert (opens + [x])[..|opens|] == opens;
  }

  ghost predicate Edge(a: Node, b: Node)
    reads a, b
  {
    a.next == b && b.prev == a
  }

  /** The sentinel, the files of the list in order, and the sentinel again. */
  ghost function RingOf(head: Node, order: seq<Node>): (r: seq<Node>)
    ensures |r| == |order| + 2
  {
    [head] + order + [head]
  }

  lemma RingNodes(head: Node, order: seq<Node>)
    requires head !in order && Distinct(order)
    ensures var r, n := RingOf(head, order), |order|;
      && r[0] == head && r[n + 1] == head
      && (forall i :: 1 <= i <= n ==> r[i] == order[i - 1] && r[i] != head)
      && (forall i, j :: 0 <= i < j <= n ==> r[i] != r[j])
      && (forall i, j :: 1 <= i < j <= n + 1 ==> r[i] != r[j])
  {
  }

  lemma ShorterRing(head: Node, order: seq<Node>, k: nat)
    requires k < |order| && head !in order && Distinct(order)
    ensures var r, s := RingOf(head, order), RingOf(head, order[..k] + order[k + 1..]);
      && (forall i :: 0 <= i < |s| ==> s[i] == if i <= k then r[i] else r[i + 1])
      && head !in order[..k] + order[k + 1..] && Distinct(order[..k] + order[k + 1..])
  {
  }
}
