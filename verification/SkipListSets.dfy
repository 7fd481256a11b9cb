/** Copying a skip list, and the union and difference of two of them. */
module SkipListSets {
  import opened IntervalEdits
  import opened Intervals
  import opened SkipLists
  import opened SkipNodes
  import Seqs

  // The node after nodes[k] on the bottom level.
  lemma Following(list: SkipList, k: nat)
    requires list.Valid() && k < |list.nodes|
    ensures list.header == list.nodes[0]
    ensures |list.nodes| == |list.ivals| + 1 && |list.nodes[k].forwards| > 0
    ensures list.nodes[k].forwards[0] == (if k + 1 < |list.nodes| then list.nodes[k + 1] else null)
    ensures k > 0 ==> Represents(list.nodes[k], list.ivals[k - 1])
  {
    var q := NextAt(list.nodes, k, 0);
  }

  ghost predicate Represents(n: Node, x: Interval)
    reads n`start, n`end
  {
    n.start == x.start && n.end == x.end && ValidRange(x.start, x.end) && x.end < GNO_MAX
  }

  // x is the node of interval number i, or null after the last one.
  ghost predicate Cursor(list: SkipList, x: Node?, i: nat)
    reads list`nodes
  {
    i < |list.nodes| && x == (if i + 1 < |list.nodes| then list.nodes[i + 1] else null)
  }

  lemma AtCursor(list: SkipList, x: Node?, i: nat)
    requires list.Valid() && Cursor(list, x, i)
    ensures list in list.Repr()
    ensures i <= |list.ivals| && (x == null <==> i == |list.ivals|)
    ensures x != null ==> ValidRange(x.start, x.end) && x.end < GNO_MAX && x in list.nodes
    ensures x != null ==> GnosTo(list.ivals, i + 1) == GnosTo(list.ivals, i) + Range(x.start, x.end)
  {
    Following(list, i);
    if x != null {
      Following(list, i + 1);
      GnosNext(list.ivals, i);
    }
  }

  ghost function GnosTo(s: seq<Interval>, i: nat): set<int> {
    if i <= |s| then Gnos(s[..i]) else {}
  }

  lemma Ends(s: seq<Interval>)
    ensures GnosTo(s, 0) == {} && GnosTo(s, |s|) == Gnos(s)
  {
    assert s[..|s|] == s;
  }

  // base with the first i intervals of s added.
  ghost function Plus(base: set<int>, s: seq<Interval>, i: nat): set<int> {
    base + GnosTo(s, i)
  }

  lemma Forward(list: SkipList, x: Node, i: nat)
    requires list.Valid() && Cursor(list, x, i)
    ensures |x.forwards| > 0 && Cursor(list, x.forwards[0], i + 1)
    ensures i + 1 <= |list.ivals| && (x.forwards[0] == null ==> i + 1 == |list.ivals|)
  {
    Following(list, i + 1);
    AtCursor(list, x.forwards[0], i + 1);
  }

  lemma PlusNext(list: SkipList, x: Node, i: nat, base: set<int>)
    requires list.Valid() && Cursor(list, x, i)
    ensures ValidRange(x.start, x.end) && x.end < GNO_MAX && list in list.Repr()
    ensures Plus(base, list.ivals, i + 1) == Plus(base, list.ivals, i) + Range(x.start, x.end)
  {
    AtCursor(list, x, i);
    Regrouped(base, GnosTo(list.ivals, i), Range(x.start, x.end));
  }

  method MergeNode(dst: SkipList, src: SkipList, x: Node, ghost s: seq<Interval>, ghost i: nat, ghost base: set<int>) 
    returns (added: int, next: Node?)
    requires dst.Valid() && src.Valid() && dst.Repr() !! src.Repr() && Cursor(src, x, i) && src.ivals == s
    requires dst.Set() == Plus(base, s, i)
    modifies dst.Repr()
    ensures dst.Valid() && dst.header == old(dst.header) && forall o :: o in dst.Repr() ==> o in old(dst.Repr()) || fresh(o)
    ensures dst.Set() == Plus(base, s, i + 1) && added == dst.gnoCount - old(dst.gnoCount)
    ensures src.Valid() && dst.Repr() !! src.Repr() && Cursor(src, next, i + 1) && src.ivals == s
    ensures i + 1 <= |s| && (next == null ==> i + 1 == |s|)
  {
    assert src in src.Repr() && dst in dst.Repr();
    hide *;
    PlusNext(src, x, i, base);
    added := dst.Add(x.start, x.end);
    Forward(src, x, i);
    next := x.forwards[0];
  }

  // Add to dst every gno of src; returns how many of them dst had not.
  method Merge(dst: SkipList, src: SkipList) returns (added: int)
    requires dst.Valid() && src.Valid() && dst.Repr() !! src.Repr()
    modifies dst.Repr()
    ensures dst.Valid() && dst.header == old(dst.header) && forall o :: o in dst.Repr() ==> o in old(dst.Repr()) || fresh(o)
    ensures dst.Set() == old(dst.Set() + src.Set()) && added == dst.gnoCount - old(dst.gnoCount)
  {
    hide *;
    added := 0;
    ghost var i, s := 0, src.ivals;
    Begin(dst, src);
    var x := src.header.forwards[0];
    while x != null
      invariant i <= |s| && (x == null ==> i == |s|)
      invariant Cursor(src, x, i) && src.ivals == s && src.Valid() && dst.Valid() && dst.header == old(dst.header)
      invariant dst.Repr() !! src.Repr() && forall o :: o in dst.Repr() ==> o in old(dst.Repr()) || fresh(o)
      invariant dst.Set() == Plus(old(dst.Set()), s, i) && added == dst.gnoCount - old(dst.gnoCount)
      decreases |s| - i
    {
      var more;
      more, x := MergeNode(dst, src, x, s, i, old(dst.Set()));
      added := added + more;
      i := i + 1;
    }
  }

  // ----- Difference: src may be dst itself, whose nodes then go one by one ---------------------

  // base without the first i intervals of s.
  ghost function Minus(base: set<int>, s: seq<Interval>, i: nat): set<int> {
    base - GnosTo(s, i)
  }

  // The intervals s of src are done up to number i, whose node is x.
  ghost predicate Position(dst: SkipList, src: SkipList, x: Node?, s: seq<Interval>, i: nat)
    reads src`nodes, src`ivals
  {
    && i <= |s|
    && src.ivals == (if dst == src then s[i..] else s)
    && Cursor(src, x, if dst == src then 0 else i)
  }

  lemma AtPosition(dst: SkipList, src: SkipList, x: Node?, s: seq<Interval>, i: nat, base: set<int>)
    requires src.Valid() && Position(dst, src, x, s, i)
    ensures src in src.Repr() && i <= |s| && (x == null <==> i == |s|)
    ensures x != null ==> ValidRange(x.start, x.end) && x.end < GNO_MAX && |x.forwards| > 0
    ensures x != null ==> Minus(base, s, i + 1) == Minus(base, s, i) - Range(x.start, x.end)
    ensures x != null && dst == src ==> src.ivals != [] && src.ivals[0] == Interval(x.start, x.end)
    ensures x != null && dst != src ==> Position(dst, src, x.forwards[0], s, i + 1)
    ensures x != null ==> i + 1 <= |s| && (x.forwards[0] == null ==> i + 1 == |s|)
    ensures x != null && dst == src && |src.nodes| > 2 ==> x.forwards[0] == src.nodes[2]
    ensures x != null && dst == src && |src.nodes| <= 2 ==> x.forwards[0] == null
  {
    var j := if dst == src then 0 else i;
    AtCursor(src, x, j);
    if x != null {
      Following(src, j);
      Forward(src, x, j);
      Following(src, j + 1);
      GnosNext(s, i);
      Regrouped(base, GnosTo(s, i), Range(x.start, x.end));
    }
  }

  lemma Begin(dst: SkipList, src: SkipList)
    requires dst.Valid() && src.Valid()
    ensures |src.header.forwards| > 0 && Position(dst, src, src.header.forwards[0], src.ivals, 0)
    ensures src.header.forwards[0] == null ==> |src.ivals| == 0
    ensures dst.Set() == Minus(dst.Set(), src.ivals, 0)
    ensures Minus(dst.Set(), src.ivals, |src.ivals|) == dst.Set() - src.Set()
    ensures dst.Set() == Plus(dst.Set(), src.ivals, 0) && Cursor(src, src.header.forwards[0], 0)
    ensures Plus(dst.Set(), src.ivals, |src.ivals|) == dst.Set() + src.Set()
  {
    Following(src, 0);
    Ends(src.ivals);
  }

  // The first node of the list itself has been removed.
  lemma Shortened(list: SkipList, before: seq<Interval>, was: seq<Node>, next: Node?, s: seq<Interval>, i: nat)
    requires list.Valid() && Canonical(before) && before != [] && i < |s| && before == s[i..]
    requires |was| == |before| + 1 && list.nodes == [list.header] + was[2..]
    requires list.Set() == Gnos(before) - Range(before[0].start, before[0].end)
    requires next == (if |was| > 2 then was[2] else null)
    ensures Position(list, list, next, s, i + 1)
  {
    Tail(before);
    CanonicalUnique(list.ivals, before[1..]);
  }

  method DiffNode(dst: SkipList, src: SkipList, x: Node, ghost s: seq<Interval>, ghost i: nat, ghost base: set<int>)
    returns (removed: int, next: Node?)
    requires dst.Valid() && src.Valid() && (dst == src || dst.Repr() !! src.Repr()) && Position(dst, src, x, s, i)
    requires dst.Set() == Minus(base, s, i)
    modifies dst.Repr()
    ensures dst.Valid() && dst.header == old(dst.header)
    ensures forall o :: o in dst.Repr() ==> o in old(dst.Repr()) || fresh(o)
    ensures dst.Set() == Minus(base, s, i + 1) && removed == old(dst.gnoCount) - dst.gnoCount
    ensures src.Valid() && (dst == src || dst.Repr() !! src.Repr()) && Position(dst, src, next, s, i + 1)
    ensures i + 1 <= |s| && (next == null ==> i + 1 == |s|)
  {
    assert src in src.Repr() && dst in dst.Repr() && |src.nodes| == |src.ivals| + 1 && Canonical(src.ivals);
    assert dst.Set() == Gnos(dst.ivals) && (dst == src ==> i < |s| && src.ivals == s[i..]);
    hide *;
    AtPosition(dst, src, x, s, i, base);
    next := x.forwards[0];
    removed := dst.Remove(x.start, x.end);
    if dst == src {
      Shortened(dst, old(dst.ivals), old(dst.nodes), next, s, i);
    }
  }

  // Remove from dst every gno of src; returns how many of them dst had.
  method Diff(dst: SkipList, src: SkipList) returns (removed: int)
    requires dst.Valid() && src.Valid() && (dst == src || dst.Repr() !! src.Repr())
    modifies dst.Repr()
    ensures dst.Valid() && dst.header == old(dst.header)
    ensures forall o :: o in dst.Repr() ==> o in old(dst.Repr()) || fresh(o)
    ensures dst.Set() == old(dst.Set() - src.Set()) && removed == old(dst.gnoCount) - dst.gnoCount
  {
    hide *;
    removed := 0;
    ghost var i, s := 0, src.ivals;
    Begin(dst, src);
    var cur := src.header.forwards[0];
    while cur != null
      invariant i <= |s| && Position(dst, src, cur, s, i) && (cur == null ==> i == |s|)
      invariant src.Valid() && dst.Valid() && dst.header == old(dst.header) && (dst == src || dst.Repr() !! src.Repr())
      invariant forall o :: o in dst.Repr() ==> o in old(dst.Repr()) || fresh(o)
      invariant dst.Set() == Minus(old(dst.Set()), s, i) && removed == old(dst.gnoCount) - dst.gnoCount
      decreases |s| - i
    {
      var more;
      more, cur := DiffNode(dst, src, cur, s, i, old(dst.Set()));
      removed := removed + more;
      i := i + 1;
    }
  }

  // ----- Copy ------------------------------------------------------------------------------------

  // d is a copy of s, whose nodes hold t, up to interval number i.
  ghost predicate Copied(s: seq<Node>, t: seq<Interval>, d: seq<Node>, i: nat)
    reads d`start, d`end, d`forwards
  {
    && i <= |t| && |s| == |t| + 1 && |d| == i + 1
    && (forall j :: 0 <= j <= i ==> d[j].level == s[j].level)
    && Holds(d, t[..i]) && Linked(d) && Distinct(d)
  }

  // Every level's last node of d.
  ghost predicate Leads(leads: array<Node>, d: seq<Node>)
    reads leads
  {
    leads.Length == MAXLEVEL && forall l :: 0 <= l < MAXLEVEL ==> leads[l] == LastTaller(d, l)
  }

  method CopyNode(cur: Node, leads: array<Node>, ghost s: seq<Node>, ghost t: seq<Interval>, ghost d: seq<Node>, ghost i: nat)
    returns (x: Node)
    requires Copied(s, t, d, i) && Leads(leads, d) && i < |t| && cur == s[i + 1]
    requires cur.start == t[i].start && cur.end == t[i].end && 1 <= cur.level <= s[0].level == MAXLEVEL
    modifies leads, d`forwards
    ensures fresh(x) && Copied(s, t, d + [x], i + 1) && Leads(leads, d + [x])
  {
    x := new Node(cur.level, cur.start, cur.end);
    Append(leads, x, d);
    DistinctConcat(d, [x]);
    Seqs.One(t, i);
  }

  method CopyNext(gsl: SkipList, cur: Node, leads: array<Node>,
                  ghost s: seq<Node>, ghost t: seq<Interval>, ghost d: seq<Node>, ghost i: nat)
    returns (x: Node, next: Node?)
    requires gsl.Valid() && gsl.nodes == s && gsl.ivals == t && Cursor(gsl, cur, i)
    requires Copied(s, t, d, i) && Leads(leads, d) && forall j :: 0 <= j < |d| ==> d[j] !in s
    modifies leads, d`forwards
    ensures fresh(x) && Copied(s, t, d + [x], i + 1) && Leads(leads, d + [x])
    ensures gsl.Valid() && gsl.nodes == s && gsl.ivals == t
    ensures Cursor(gsl, next, i + 1) && i + 1 <= |t| && (next == null ==> i + 1 == |t|)
  {
    CopyReady(gsl, cur, i);
    x := CopyNode(cur, leads, s, t, d, i);
    next := cur.forwards[0];
  }

  // The copy has nodes of its own, as high as the original ones.
  method Dup(gsl: SkipList) returns (dup: SkipList)
    requires gsl.Valid()
    ensures fresh(dup.Repr()) && dup.Valid() && dup.ivals == gsl.ivals
  {
    hide Holds, Linked, Shape, Tight, Distinct, Canonical, Count, Leads, Copied;
    var h := new Node(MAXLEVEL, 0, 0);
    var leads := new Node[MAXLEVEL](_ => h);
    StartCopy(gsl, leads, h);
    var tail, d := CopyNodes(gsl, h, leads);
    EndCopy(gsl, d);
    dup := new SkipList.Assemble(h, tail, gsl.nodeCount, gsl.gnoCount, gsl.level, d, gsl.ivals);
  }

  lemma Outside(gsl: SkipList, h: Node)
    requires gsl.Valid() && h !in gsl.nodes
    ensures gsl in gsl.Repr() && h !in gsl.Repr()
  {
  }

  method CopyNodes(gsl: SkipList, h: Node, leads: array<Node>) returns (tail: Node, ghost d: seq<Node>)
    requires gsl.Valid() && h !in gsl.nodes && h.level == MAXLEVEL
    requires Copied(gsl.nodes, gsl.ivals, [h], 0) && Leads(leads, [h])
    modifies leads, h`forwards
    ensures Copied(gsl.nodes, gsl.ivals, d, |gsl.ivals|) && d[0] == h && tail == d[|gsl.ivals|]
    ensures forall j :: 1 <= j < |d| ==> fresh(d[j])
  {
    hide *;
    Outside(gsl, h);
    Begin(gsl, gsl);
    ghost var i, s, t := 0, gsl.nodes, gsl.ivals;
    tail := h;
    d := [h];
    var cur := gsl.header.forwards[0];
    while cur != null
      invariant gsl.Valid() && gsl.nodes == s && gsl.ivals == t
      invariant Cursor(gsl, cur, i) && i <= |t| && (cur == null ==> i == |t|)
      invariant Copied(s, t, d, i) && Leads(leads, d) && |d| == i + 1 && d[0] == h && tail == d[i]
      invariant forall j :: 1 <= j < |d| ==> fresh(d[j])
      invariant forall j :: 0 <= j < |d| ==> d[j] !in s
      decreases |t| - i
    {
      tail, cur := CopyNext(gsl, cur, leads, s, t, d, i);
      d := d + [tail];
      i := i + 1;
    }
  }

  lemma CopyReady(gsl: SkipList, cur: Node, i: nat)
    requires gsl.Valid() && Cursor(gsl, cur, i)
    ensures i < |gsl.ivals| && cur == gsl.nodes[i + 1] && 1 <= cur.level <= gsl.nodes[0].level == MAXLEVEL
    ensures cur.start == gsl.ivals[i].start && cur.end == gsl.ivals[i].end
    ensures |cur.forwards| > 0 && Cursor(gsl, cur.forwards[0], i + 1)
    ensures cur.forwards[0] == null ==> i + 1 == |gsl.ivals|
  {
    Forward(gsl, cur, i);
    Following(gsl, i + 1);
  }

  lemma StartCopy(gsl: SkipList, leads: array<Node>, h: Node)
    requires gsl.Valid() && h.level == MAXLEVEL && h.start == h.end == 0 && h.forwards == seq(MAXLEVEL, _ => null)
    requires leads.Length == MAXLEVEL && forall l :: 0 <= l < MAXLEVEL ==> leads[l] == h
    ensures Copied(gsl.nodes, gsl.ivals, [h], 0) && Leads(leads, [h])
  {
    forall l | 0 <= l < MAXLEVEL ensures LastTaller([h], l) == h {
      LastTallerIs([h], l, 0);
    }
  }

  lemma EndCopy(gsl: SkipList, d: seq<Node>)
    requires gsl.Valid() && Copied(gsl.nodes, gsl.ivals, d, |gsl.ivals|)
    ensures Shape(d, gsl.level) && Linked(d) && Tight(d, gsl.level) && gsl.nodeCount == |d|
    ensures Holds(d, gsl.ivals) && Canonical(gsl.ivals) && gsl.gnoCount == Count(gsl.ivals)
  {
    assert gsl.ivals[..|gsl.ivals|] == gsl.ivals;
    if gsl.level > 1 {
      var k :| 1 <= k < |gsl.nodes| && gsl.nodes[k].level == gsl.level;
      assert d[k].level == gsl.level;
    }
  }

  lemma Regrouped(a: set<int>, b: set<int>, c: set<int>)
    ensures a + b + c == a + (b + c) && a - b - c == a - (b + c)
  {
  }

  // Whatever their node heights and histories, two lists of the same numbers have the same intervals.
  lemma SameSetSameForm(a: SkipList, b: SkipList)
    requires a.Valid() && b.Valid()
    ensures a.Set() == b.Set() <==> a.ivals == b.ivals
    ensures a.Set() == b.Set() ==> a.nodeCount == b.nodeCount && a.gnoCount == b.gnoCount
  {
    if a.Set() == b.Set() {
      CanonicalUnique(a.ivals, b.ivals);
    }
  }
}
