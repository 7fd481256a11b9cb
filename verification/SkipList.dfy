/** The interval skip list of gtid.c: insertion, removal and search relink its nodes in place. */
module SkipLists {
  import opened IntervalEdits
  import opened Intervals
  import opened SkipNodes
  import Seqs

  class SkipList {
    var header: Node
    var tail: Node
    var nodeCount: nat
    var gnoCount: int
    var level: nat

    ghost var nodes: seq<Node>      // header first
    ghost var ivals: seq<Interval>  // what nodes[1..] hold

    ghost function Repr(): set<object>
      reads this`nodes
    {
      {this} + set n: Node | n in nodes
    }

    // The links are right for the sequence "nodes".
    ghost predicate Chained()
      reads this`header, this`level, this`nodes, nodes`forwards
    {
      Shape(nodes, level) && nodes[0] == header && Linked(nodes)
    }

    // ... and so are the tail, the node counter and the height.
    ghost predicate Linkage()
      reads this`header, this`tail, this`nodeCount, this`level, this`nodes, nodes`forwards
    {
      && Chained()
      && tail == nodes[|nodes| - 1]
      && nodeCount == |nodes|
      && Tight(nodes, level)
    }

    ghost predicate Valid()
      reads this, Repr()
    {
      && Linkage()
      && Holds(nodes, ivals)
      && Canonical(ivals)
      && gnoCount == Count(ivals)
    }

    lemma Open()
      requires Valid()
      ensures Linkage() && Holds(nodes, ivals) && Canonical(ivals) && gnoCount == Count(ivals) && Set() == Gnos(ivals)
    {
    }

    lemma Close()
      requires Linkage() && Holds(nodes, ivals) && Canonical(ivals) && gnoCount == Count(ivals)
      ensures Valid() && Set() == Gnos(ivals)
    {
    }

    // The gnos in the list.
    ghost function Set(): set<int>
      reads this
    {
      Gnos(ivals)
    }

    constructor ()
      ensures Valid() && ivals == [] && fresh(Repr())
    {
      var h := new Node(MAXLEVEL, 0, 0);
      level := 1;
      header := h;
      tail := h;
      nodeCount := 1;
      gnoCount := 0;
      nodes := [h];
      ivals := [];
    }

    // Around nodes that are already linked.
    constructor Assemble(header: Node, tail: Node, nodeCount: nat, gnoCount: int, level: nat,
                         ghost nodes: seq<Node>, ghost ivals: seq<Interval>)
      requires Shape(nodes, level) && nodes[0] == header && Linked(nodes) && Tight(nodes, level)
      requires tail == nodes[|nodes| - 1] && nodeCount == |nodes|
      requires Holds(nodes, ivals) && Canonical(ivals) && gnoCount == Count(ivals)
      ensures Valid() && this.ivals == ivals && this.nodes == nodes
    {
      this.header := header;
      this.tail := tail;
      this.nodeCount := nodeCount;
      this.gnoCount := gnoCount;
      this.level := level;
      this.nodes := nodes;
      this.ivals := ivals;
    }

    // The running count is exact, so the differences of it that Add and Remove return are exact too.
    lemma CountIsExact()
      requires Valid()
      ensures gnoCount == |Set()|
    {
      CountIsCardinality(ivals);
    }

    // ----- Search -----------------------------------------------------------------------------

    // The predecessors of a node that is to follow the nodes a, one for each level in use.
    ghost predicate Preds(preds: array<Node>, a: seq<Node>)
      reads this`level, preds
    {
      && level <= MAXLEVEL == preds.Length
      && forall l :: 0 <= l < level ==> preds[l] == LastTaller(a, l)
    }

    // On level i, go on from x to the last node that is to be kept.
    method Advance(x: Node, i: nat, keep: (int, int) -> bool, ghost p: nat, ghost k: nat) returns (y: Node, ghost q: nat)
      requires Chained() && Holds(nodes, ivals) && p <= k <= |ivals|
      requires forall j :: 0 <= j < |ivals| ==> (keep(ivals[j].start, ivals[j].end) <==> j < k)
      requires x == nodes[p] && x.level > i
      ensures p <= q <= k && y == nodes[q] && y.level > i
      ensures forall j :: q < j <= k ==> nodes[j].level <= i
    {
      y, q := x, p;
      while y.forwards[i] != null && keep(y.forwards[i].start, y.forwards[i].end)
        invariant p <= q <= k && y == nodes[q] && y.level > i
        decreases |nodes| - q
        modifies {}
      {
        ghost var n := NextAt(nodes, q, i);
        assert nodes[n].start == ivals[n - 1].start && nodes[n].end == ivals[n - 1].end;
        y := y.forwards[i];
        q := n;
      }
      ghost var n := NextAt(nodes, q, i);
      assert n < |nodes| ==> nodes[n].start == ivals[n - 1].start && nodes[n].end == ivals[n - 1].end;
    }

    // Walk down from the header; at each level stop before the first node that is not to be kept.
    method Descend(keep: (int, int) -> bool, ghost k: nat) returns (preds: array<Node>)
      requires Chained() && Holds(nodes, ivals) && k <= |ivals|
      requires forall i :: 0 <= i < |ivals| ==> (keep(ivals[i].start, ivals[i].end) <==> i < k)
      ensures fresh(preds) && Preds(preds, nodes[..k + 1]) && preds[0] == nodes[k]
    {
      var x := header;
      preds := new Node[MAXLEVEL](_ => x);
      ghost var p := 0;
      var i := level;
      while i > 0
        invariant 0 <= i <= level && 0 <= p <= k && x == nodes[p] && x.level >= i
        invariant forall l :: i <= l < level ==> preds[l] == LastTaller(nodes[..k + 1], l)
        modifies preds
      {
        i := i - 1;
        x, p := Advance(x, i, keep, p, k);
        LastTallerIs(nodes[..k + 1], i, p);
        preds[i] := x;
      }
      LastTallerIs(nodes[..k + 1], 0, k);
    }

    method Contains(gno: int) returns (found: bool)
      requires Valid() && gno >= GNO_INITIAL
      ensures found == (gno in Set())
    {
      ghost var k := StartsBelow(ivals, gno + 1);
      var x := header;
      ghost var p := 0;
      var i := level;
      while i > 0
        invariant 0 <= i <= level && 0 <= p <= k && x == nodes[p] && x.level >= i
        invariant i < level ==> forall j :: p < j <= k ==> nodes[j].level <= i
        modifies {}
      {
        i := i - 1;
        x, p := Advance(x, i, (s, e) => s <= gno, p, k);
      }
      Lookup(ivals, k, gno);
      return x.start <= gno && gno <= x.end;
    }

    function NextGno(): (gno: int)
      requires Valid()
      reads this, Repr()
      ensures IsNext(gno, Set())
    {
      AfterIsNext(ivals);
      tail.end + 1
    }

    // The number after the last one in the list; with "update" it is added.
    method Next(update: bool) returns (gno: int)
      requires Valid() && (update ==> tail.end + 1 < GNO_MAX)
      modifies Repr()
      ensures Valid() && header == old(header)
      ensures gno == old(After(ivals))
      ensures Set() == old(Set()) + (if update then {gno} else {})
      ensures gnoCount == old(gnoCount) + (if update then 1 else 0)
      ensures !update ==> unchanged(old(Repr()))
      ensures forall o :: o in Repr() ==> o in old(Repr()) || fresh(o)
    {
      gno := tail.end + 1;
      assert gno == After(ivals) && ValidRange(gno, gno) && Range(gno, gno) == {gno} && Set() == Gnos(ivals);
      AfterIsNext(ivals);
      assert gno !in Set();
      CountIsExact();
      hide *;
      if update {
        OneMore(Set(), gno);
        var added := Add(gno, gno);
        CountIsExact();
      }
    }

    lemma TailIsLast()
      requires Valid()
      ensures tail.end + 1 == After(ivals)
    {
    }

    method Current() returns (gno: int)
      requires Valid()
      ensures gno == After(ivals) - 1
    {
      gno := tail.end;
    }

    // ----- Add --------------------------------------------------------------------------------

    // Add every gno from start to end; returns how many of them were missing.
    method Add(start: int, end: int) returns (added: int)
      requires Valid() && ValidRange(start, end) && end < GNO_MAX
      modifies Repr()
      ensures Valid() && header == old(header)
      ensures Set() == old(Set()) + Range(start, end)
      ensures added == gnoCount - old(gnoCount)
      ensures forall o :: o in Repr() ==> o in old(Repr()) || fresh(o)
    {
      if header != tail && tail.end + 1 == start {
        assert Set() + Range(start, end) == Set() + Range(tail.end + 1, end);
        added := Extend(end);
      } else {
        added := AddSlow(start, end);
      }
    }

    // The range starts right after the last interval.
    method Extend(end: int) returns (added: int)
      requires Valid() && ivals != [] && tail.end < end < GNO_MAX
      modifies this`gnoCount, this`ivals, tail`start, tail`end
      ensures Valid()
      ensures Set() == old(Set() + Range(tail.end + 1, end)) && added == Count(ivals) - Count(old(ivals))
    {
      ghost var k := |ivals| - 1;
      ghost var x := Interval(tail.start, end);
      assert k > 0 ==> Gap(ivals, k - 1, k);
      JoinedSpec(ivals, k, k + 1, tail.end + 1, end, x);
      JoinedOne(ivals, k, x);
      added := end - tail.end;
      SetSpan(tail, tail.start, end, nodes, ivals, k + 1);
      gnoCount := gnoCount + added;
      ivals := ivals[k := x];
    }

    method AddSlow(start: int, end: int) returns (added: int)
      requires Valid() && ValidRange(start, end) && end < GNO_MAX
      modifies this, nodes
      ensures Valid() && header == old(header)
      ensures Set() == old(Set()) + Range(start, end) && added == Count(ivals) - Count(old(ivals))
      ensures forall n :: n in nodes ==> n in old(nodes) || fresh(n)
    {
      ghost var a := EndsBelow(ivals, start - 1);
      ghost var b := StartsBelow(ivals, end + 2);
      var lefts := Descend((s, e) => e + 1 < start, a);
      var rights := Descend((s, e) => s <= end + 1, b);
      assert b < a ==> ValidRange(ivals[b].start, ivals[b].end);
      if lefts[0] == rights[0] {
        assert a < b ==> Differ(nodes, a, b);
        added := Create(rights, a, start, end);
      } else {
        added := Join(lefts, rights, a, b, start, end);
      }
    }

    // Nothing overlaps or touches the range: it becomes a node of its own.
    method Create(rights: array<Node>, ghost k: nat, start: int, end: int) returns (added: int)
      requires Valid() && ValidRange(start, end) && end < GNO_MAX && k <= |ivals| && Preds(rights, nodes[..k + 1])
      requires k > 0 ==> ivals[k - 1].end + 1 < start
      requires k < |ivals| ==> end + 1 < ivals[k].start
      modifies this, nodes`forwards, rights
      ensures Valid() && header == old(header)
      ensures Set() == old(Set()) + Range(start, end) && added == Count(ivals) - Count(old(ivals))
      ensures forall n :: n in nodes ==> n in old(nodes) || fresh(n)
    {
      hide *;
      Open();
      ghost var t := Inserted(ivals, k, Interval(start, end));
      InsertedSpec(ivals, k, Interval(start, end));
      Seqs.Halves(nodes, k + 1);
      var height := RandomLevel();
      Place(rights, height, start, end, nodes[..k + 1], nodes[k + 1..], ivals);
      added := end - start + 1;
      gnoCount := gnoCount + added;
      ivals := t;
      Close();
    }

    // A new node for [start, end] between a and b.
    method Place(preds: array<Node>, height: nat, start: int, end: int,
                 ghost a: seq<Node>, ghost b: seq<Node>, ghost s: seq<Interval>)
      requires Linkage() && nodes == a + b && a != [] && Holds(nodes, s)
      requires Preds(preds, a) && 1 <= height <= MAXLEVEL
      modifies this`level, this`nodeCount, this`tail, this`nodes, preds, nodes`forwards
      ensures Linkage() && Holds(nodes, Inserted(s, |a| - 1, Interval(start, end)))
      ensures forall n :: n in nodes ==> n in old(nodes) || fresh(n)
    {
      var x := new Node(height, start, end);
      LinkNew(preds, x, a, b);
      HoldsInsert(a, b, s, x);
    }

    method LinkNew(preds: array<Node>, x: Node, ghost a: seq<Node>, ghost b: seq<Node>)
      requires Linkage() && nodes == a + b && a != [] && Preds(preds, a)
      requires x !in nodes && 1 <= x.level <= MAXLEVEL && |x.forwards| == x.level
      modifies this`level, this`nodeCount, this`tail, this`nodes, preds, nodes`forwards, x`forwards
      ensures Linkage() && nodes == a + [x] + b
    {
      hide *;
      BeforeLink(preds, x, a, b);
      Raise(preds, x.level, a);
      level := if x.level > level then x.level else level;
      nodes := a + [x] + b;
      nodeCount := nodeCount + 1;
      Thread(preds, x, a, b);
      IsChained();
      LastTwo(a, x, b);
      AdvanceTail();
      IsLinkage();
    }

    // What the parts of linking need to know, and the shape that will result.
    lemma BeforeLink(preds: array<Node>, x: Node, a: seq<Node>, b: seq<Node>)
      requires Linkage() && nodes == a + b && a != [] && Preds(preds, a)
      requires x !in nodes && 1 <= x.level <= MAXLEVEL
      ensures level <= MAXLEVEL == preds.Length && Shape(a, level) && a[0] == header && a[0].level == MAXLEVEL
      ensures forall l :: 0 <= l < level ==> preds[l] == LastTaller(a, l)
      ensures Linked(a + b) && Distinct(a) && Apart(b, a) && x !in a && x !in b && nodeCount == |a| + |b|
      ensures tail == (if b == [] then a[|a| - 1] else b[|b| - 1]) && forall i :: 0 <= i < |a| ==> a[i] == nodes[i]
      ensures var top := if x.level > level then x.level else level;
        Shape(a + [x] + b, top) && Tight(a + [x] + b, top)
    {
      hide *;
      Opened();
      OpenedPreds(preds, a);
      ShapeInsert(a, b, x, level);
      TightInsert(a, b, x, level);
      OpenedShape(a, level);
      BothEnds(a, b, x);
    }

    lemma Opened()
      requires Linkage()
      ensures Shape(nodes, level) && nodes != [] && nodes[0] == header && Linked(nodes)
      ensures tail == nodes[|nodes| - 1] && nodeCount == |nodes| && Tight(nodes, level)
    {
    }

    lemma OpenedPreds(preds: array<Node>, a: seq<Node>)
      requires Preds(preds, a)
      ensures level <= MAXLEVEL == preds.Length && forall l :: 0 <= l < level ==> preds[l] == LastTaller(a, l)
    {
    }

    lemma OpenedShape(a: seq<Node>, level: nat)
      requires Shape(a, level)
      ensures a != [] && a[0].level == MAXLEVEL && Distinct(a)
    {
    }

    lemma BothEnds(a: seq<Node>, b: seq<Node>, x: Node)
      requires a != [] && nodes == a + b
      ensures nodes[0] == a[0] && nodes[|nodes| - 1] == (if b == [] then a[|a| - 1] else b[|b| - 1])
      ensures |nodes| == |a| + |b| && (forall i :: 0 <= i < |a| ==> a[i] == nodes[i])
      ensures x !in nodes ==> x !in a && x !in b
    {
    }

    lemma IsChained()
      requires Shape(nodes, level) && nodes[0] == header && Linked(nodes)
      ensures Chained() && nodes != []
    {
    }

    lemma IsLinkage()
      requires Chained() && nodes != [] && tail == nodes[|nodes| - 1] && nodeCount == |nodes| && Tight(nodes, level)
      ensures Linkage()
    {
    }

    lemma LastTwo(a: seq<Node>, x: Node, b: seq<Node>)
      requires nodes == a + [x] + b && a != [] && tail == (if b == [] then a[|a| - 1] else b[|b| - 1])
      ensures tail == nodes[|nodes| - 1] || (|nodes| > 1 && tail == nodes[|nodes| - 2])
    {
    }

    // New levels start at the header.
    method Raise(preds: array<Node>, height: nat, ghost a: seq<Node>)
      requires level <= MAXLEVEL == preds.Length && height <= MAXLEVEL
      requires Shape(a, level) && a[0] == header
      requires forall l :: 0 <= l < level ==> preds[l] == LastTaller(a, l)
      modifies preds
      ensures forall l :: 0 <= l < height ==> preds[l] == LastTaller(a, l)
    {
      var i := level;
      while i < height
        invariant level <= i && (i <= height || i == level)
        invariant forall l :: 0 <= l < i ==> preds[l] == LastTaller(a, l)
      {
        LastTallerIs(a, i, 0);
        preds[i] := header;
        i := i + 1;
      }
    }

    method AdvanceTail()
      requires Chained()
      requires tail == nodes[|nodes| - 1] || (|nodes| > 1 && tail == nodes[|nodes| - 2])
      modifies this`tail
      ensures Chained() && tail == nodes[|nodes| - 1]
    {
      LastLinks(nodes);
      if tail.forwards[0] != null {
        tail := tail.forwards[0];
      }
    }

    // nodes[a + 1..b + 1] overlap or touch the range: the last of them becomes their union.
    method Join(lefts: array<Node>, rights: array<Node>, ghost a: nat, ghost b: nat, start: int, end: int)
      returns (added: int)
      requires Valid() && ValidRange(start, end) && end < GNO_MAX && a < b <= |ivals|
      requires Preds(lefts, nodes[..a + 1]) && Preds(rights, nodes[..b + 1])
      requires lefts[0] == nodes[a] && rights[0] == nodes[b]
      requires a > 0 ==> ivals[a - 1].end + 1 < start
      requires b < |ivals| ==> end + 1 < ivals[b].start
      requires start <= ivals[a].end + 1 && ivals[b - 1].start <= end + 1
      modifies this, nodes
      ensures Valid() && header == old(header)
      ensures Set() == old(Set()) + Range(start, end) && added == Count(ivals) - Count(old(ivals))
      ensures forall n :: n in nodes ==> n in old(nodes)
    {
      hide *;
      Open();
      ghost var x := Cover(ivals, a, b, start, end);
      JoinedSpec(ivals, a, b, start, end, x);
      added := Absorb(lefts, rights, a, b, start, end, ivals, x);
      gnoCount := gnoCount + added;
      ivals := Joined(ivals, a, b, x);
      Close();
    }

    method Absorb(lefts: array<Node>, rights: array<Node>, ghost a: nat, ghost b: nat, start: int, end: int,
                  ghost s: seq<Interval>, ghost x: Interval) returns (added: int)
      requires Linkage() && Holds(nodes, s) && a < b <= |s| && x == Cover(s, a, b, start, end)
      requires Preds(lefts, nodes[..a + 1]) && Preds(rights, nodes[..b + 1])
      requires lefts[0] == nodes[a] && rights[0] == nodes[b]
      modifies this`level, this`nodeCount, this`nodes, nodes
      ensures Linkage() && forall n :: n in nodes ==> n in old(nodes)
      ensures Holds(nodes, Joined(s, a, b, x)) && added == x.end - x.start + 1 - Count(s[a..b])
    {
      ghost var p, mid, c := nodes[..a + 1], nodes[a + 1..b], nodes[b..];
      Beside(a, b, p, mid, c, rights);
      assert |nodes| == |s| + 1;
      hide *;
      var l, r := lefts[0].forwards[0], rights[0];
      added := AbsorbAt(lefts, rights, l, r, a, b, start, end, s, x, p, mid, c);
    }

    // nodes[a + 1..b] are to go and nodes[b] stays.
    lemma Beside(a: nat, b: nat, p: seq<Node>, mid: seq<Node>, c: seq<Node>, rights: array<Node>)
      requires Linkage() && a < b < |nodes| && Preds(rights, nodes[..b + 1])
      requires p == nodes[..a + 1] && mid == nodes[a + 1..b] && c == nodes[b..]
      ensures nodes == p + mid + c && |p| == a + 1 && |mid| == b - 1 - a && c != [] && c[0] == nodes[b]
      ensures Shape(p + c, level) && Row(mid, nodes[b]) && nodes[b] !in mid
      ensures |nodes[a].forwards| > 0 && nodes[a].forwards[0] == nodes[a + 1] == (if mid == [] then nodes[b] else mid[0])
      ensures rights.Length == MAXLEVEL
      ensures forall l :: nodes[b].level <= l < level ==> rights[l] == LastTaller(p + mid, l)
    {
      hide *;
      Opened();
      IsChained();
      OpenedPreds(rights, nodes[..b + 1]);
      Seqs.Parts(nodes, a, b, p, mid, c);
      RightmostUnchanged(rights, p + mid, nodes[b]);
      Surround(p, mid, c);
    }

    method AbsorbAt(lefts: array<Node>, rights: array<Node>, l: Node, r: Node, ghost a: nat, ghost b: nat,
                    start: int, end: int, ghost s: seq<Interval>, ghost x: Interval,
                    ghost p: seq<Node>, ghost mid: seq<Node>, ghost c: seq<Node>) returns (added: int)
      requires Linkage() && Holds(nodes, s) && a < b <= |s| && x == Cover(s, a, b, start, end)
      requires nodes == p + mid + c && |p| == a + 1 && |mid| == b - 1 - a && c != [] && r == c[0] && Shape(p + c, level)
      requires Preds(lefts, p) && rights.Length == MAXLEVEL
      requires forall l :: r.level <= l < level ==> rights[l] == LastTaller(p + mid, l)
      requires l == nodes[a + 1] == (if mid == [] then r else mid[0]) && r == nodes[b] && Row(mid, r) && r !in mid
      modifies this`level, this`nodeCount, this`nodes, nodes
      ensures Linkage() && nodes == p + c
      ensures Holds(nodes, Joined(s, a, b, x)) && added == x.end - x.start + 1 - Count(s[a..b])
    {
      hide *;
      DistinctNodes(s);
      added := Widen(l, r, start, end, s, a, b, x);
      HoldsAbsorbed(p, mid, c, s, a, b, x);
      var gnos := UnlinkBefore(lefts, rights, l, r, p, mid, c, s[a..b - 1], Joined(s, a, b, x));
      added := added - gnos;
    }

    // The last of the joined nodes takes the union; returns how much longer it got.
    method Widen(l: Node, r: Node, start: int, end: int,
                 ghost s: seq<Interval>, ghost a: nat, ghost b: nat, ghost x: Interval) returns (more: int)
      requires Distinct(nodes) && Holds(nodes, s) && a < b <= |s| && x == Cover(s, a, b, start, end)
      requires l == nodes[a + 1] && r == nodes[b]
      modifies r`start, r`end
      ensures Holds(nodes, s[b - 1 := x])
      ensures more == x.end - x.start + 1 - (s[b - 1].end - s[b - 1].start + 1)
    {
      assert l.start == s[a].start && r.start == s[b - 1].start && r.end == s[b - 1].end;
      var saved := r.end - r.start + 1;
      SetSpan(r, if start < l.start then start else l.start, if end < r.end then r.end else end, nodes, s, b);
      more := r.end - r.start + 1 - saved;
    }

    // The bottom level around mid, which is about to go.
    lemma Surround(a: seq<Node>, mid: seq<Node>, c: seq<Node>)
      requires Chained() && nodes == a + mid + c && a != []
      ensures var r := if c == [] then null else c[0];
              && |a[|a| - 1].forwards| > 0 && a[|a| - 1].forwards[0] == (if mid == [] then r else mid[0])
              && |(a + mid)[|a + mid| - 1].forwards| > 0 && (a + mid)[|a + mid| - 1].forwards[0] == r
              && Row(mid, r) && r !in mid
      ensures Shape(a + c, level)
    {
      ShapeCut(a, mid, c, level);
      Seqs.Assoc(a, mid, c);
      NextNode(a, mid + c);
      NextNode(a + mid, c);
      MiddleRow(a, mid, c);
    }

    // A node that is not tall enough does not change the predecessors.
    lemma RightmostUnchanged(rights: array<Node>, s: seq<Node>, r: Node)
      requires Preds(rights, s + [r])
      ensures forall l :: r.level <= l < level ==> rights[l] == LastTaller(s, l)
    {
      assert (s + [r])[..|s|] == s;
    }

    // Take mid out, where r == c[0] is the node that swallowed it.
    method UnlinkBefore(lefts: array<Node>, rights: array<Node>, l: Node, r: Node,
                        ghost a: seq<Node>, ghost mid: seq<Node>, ghost c: seq<Node>,
                        ghost t: seq<Interval>, ghost rest: seq<Interval>) returns (gnos: int)
      requires Linkage() && nodes == a + mid + c && a != [] && c != [] && r == c[0] && Shape(a + c, level)
      requires Preds(lefts, a) && rights.Length == MAXLEVEL
      requires forall l :: r.level <= l < level ==> rights[l] == LastTaller(a + mid, l)
      requires l == (if mid == [] then r else mid[0]) && Row(mid, r) && r !in mid
      requires Spans(mid, t) && Holds(a + c, rest)
      modifies this`level, this`nodeCount, this`nodes, nodes`forwards
      ensures Linkage() && Holds(nodes, rest) && nodes == a + c && gnos == Count(t)
    {
      assert forall i :: 0 <= i < |a| ==> a[i] == nodes[i];
      assert c[0] == nodes[|a| + |mid|];
      BridgeTo(lefts, rights, r, level, a, mid, c);
      gnos := Drop(l, r, a, mid, c, t, rest);
    }

    // The links already bypass mid: free it and adjust the counters.
    method Drop(l: Node?, r: Node?, ghost a: seq<Node>, ghost mid: seq<Node>, ghost c: seq<Node>,
                ghost t: seq<Interval>, ghost rest: seq<Interval>) returns (gnos: int)
      requires a != [] && a[0] == header && Shape(a + c, level) && Linked(a + c)
      requires Holds(a + c, rest) && Spans(mid, t)
      requires Row(mid, r) && r !in mid && l == (if mid == [] then r else mid[0])
      requires nodeCount == |a| + |mid| + |c| && tail == (if c == [] then a[|a| - 1] else c[|c| - 1])
      modifies this`level, this`nodeCount, this`nodes
      ensures Linkage() && nodes == a + c && Holds(nodes, rest) && gnos == Count(t)
    {
      var count;
      count, gnos := Discard(l, r, mid, t);
      nodeCount := nodeCount - count;
      nodes := a + c;
      LowerLevel();
    }

    // ----- Remove -----------------------------------------------------------------------------

    // Remove every gno from start to end; returns how many of them were there.
    method Remove(start: int, end: int) returns (removed: int)
      requires Valid() && ValidRange(start, end) && end < GNO_MAX
      modifies Repr()
      ensures Valid() && header == old(header)
      ensures Set() == old(Set()) - Range(start, end)
      ensures removed == old(gnoCount) - gnoCount
      ensures forall o :: o in Repr() ==> o in old(Repr()) || fresh(o)
      ensures old(ivals) != [] && old(ivals[0]) == Interval(start, end) ==> nodes == [header] + old(nodes[2..])
    {
      ghost var a := StartsBelow(ivals, start);
      ghost var c := EndsBelow(ivals, end + 1);
      var lefts := Descend((s, e) => s < start, a);
      var rights := Descend((s, e) => e <= end, c);
      EndBeforeStart(nodes, ivals, c, a);
      assert |ivals| > 1 ==> Gap(ivals, 0, 1);
      if rights[0].end < lefts[0].start {
        removed := SplitNode(lefts, a, start, end);
      } else {
        Seqs.CutKeeps(nodes, a + 1, c + 1);
        removed := Trim(lefts, rights, a, c, start, end);
      }
    }

    // The range is strictly inside one node, which keeps the part below; a new node takes the part above.
    method SplitNode(lefts: array<Node>, ghost a: nat, start: int, end: int) returns (removed: int)
      requires Valid() && ValidRange(start, end) && 1 <= a <= |ivals|
      requires Preds(lefts, nodes[..a + 1]) && lefts[0] == nodes[a]
      requires ivals[a - 1].start < start && end < ivals[a - 1].end
      modifies this, nodes, lefts
      ensures Valid() && header == old(header)
      ensures Set() == old(Set()) - Range(start, end) && removed == Count(old(ivals)) - Count(ivals)
      ensures forall n :: n in nodes ==> n in old(nodes) || fresh(n)
    {
      hide *;
      Open();
      ghost var t := SplitAt(ivals, a, start, end);
      SplitAtSpec(ivals, a, start, end);
      Break(lefts, a, start, end, ivals, t);
      removed := end - start + 1;
      gnoCount := gnoCount - removed;
      ivals := t;
      Close();
    }

    method Break(lefts: array<Node>, ghost a: nat, start: int, end: int, ghost s: seq<Interval>, ghost t: seq<Interval>)
      requires Linkage() && Holds(nodes, s) && 1 <= a <= |s| && t == SplitAt(s, a, start, end)
      requires Preds(lefts, nodes[..a + 1]) && lefts[0] == nodes[a]
      modifies this`level, this`nodeCount, this`tail, this`nodes, nodes, lefts
      ensures Linkage() && Holds(nodes, t)
      ensures forall n :: n in nodes ==> n in old(nodes) || fresh(n)
    {
      var l := lefts[0];
      assert l.start == s[a - 1].start && l.end == s[a - 1].end;
      Seqs.Halves(nodes, a + 1);
      var height := RandomLevel();
      var last := l.end;
      SetSpan(l, l.start, start - 1, nodes, s, a);
      Place(lefts, height, end + 1, last, nodes[..a + 1], nodes[a + 1..], s[a - 1 := Interval(s[a - 1].start, start - 1)]);
    }

    // Cut the end of nodes[a] and the start of nodes[c + 1], and take out what is between.
    method Trim(lefts: array<Node>, rights: array<Node>, ghost a: nat, ghost c: nat, start: int, end: int)
      returns (removed: int)
      requires Valid() && ValidRange(start, end) && a <= c <= |ivals|
      requires Preds(lefts, nodes[..a + 1]) && Preds(rights, nodes[..c + 1])
      requires lefts[0] == nodes[a] && rights[0] == nodes[c]
      requires forall i :: 0 <= i < |ivals| ==> (ivals[i].start < start <==> i < a)
      requires forall i :: 0 <= i < |ivals| ==> (ivals[i].end <= end <==> i < c)
      modifies this, nodes
      ensures Valid() && header == old(header)
      ensures Set() == old(Set()) - Range(start, end) && removed == Count(old(ivals)) - Count(ivals)
      ensures nodes == Seqs.Cut(old(nodes), a + 1, c + 1)
    {
      hide *;
      Open();
      StartsAtOne(start, end);
      ghost var t := TrimAt(ivals, a, c, start, end);
      TrimAtSpec(ivals, a, c, start, end);
      removed := Excise(lefts, rights, a, c, start, end, ivals, t);
      gnoCount := gnoCount - removed;
      ivals := t;
      Close();
    }

    method Excise(lefts: array<Node>, rights: array<Node>, ghost a: nat, ghost c: nat, start: int, end: int,
                  ghost s: seq<Interval>, ghost t: seq<Interval>) returns (removed: int)
      requires Linkage() && Holds(nodes, s) && a <= c <= |s| && t == TrimAt(s, a, c, start, end) && 1 <= start
      requires Preds(lefts, nodes[..a + 1]) && Preds(rights, nodes[..c + 1])
      requires lefts[0] == nodes[a] && rights[0] == nodes[c]
      modifies this`level, this`nodeCount, this`tail, this`nodes, nodes
      ensures Linkage() && Holds(nodes, t) && nodes == Seqs.Cut(old(nodes), a + 1, c + 1)
      ensures removed == TrimmedCount(s, a, c, start, end)
    {
      ghost var x, mid, y := nodes[..a + 1], nodes[a + 1..c + 1], nodes[c + 1..];
      Flanks(a, c, s, x, mid, y);
      assert Seqs.Cut(nodes, a + 1, c + 1) == x + y;
      hide *;
      var r := rights[0].forwards[0];
      removed := ExciseAt(lefts, rights, lefts[0], r, start, end, s, a, c, x, mid, y);
    }

    method ExciseAt(lefts: array<Node>, rights: array<Node>, l: Node, r: Node?, start: int, end: int,
                    ghost s: seq<Interval>, ghost a: nat, ghost c: nat,
                    ghost x: seq<Node>, ghost mid: seq<Node>, ghost y: seq<Node>) returns (removed: int)
      requires Linkage() && Holds(nodes, s) && a <= c <= |s| && 1 <= start && l == nodes[a]
      requires Preds(lefts, x) && Preds(rights, x + mid) && Around(a, c, s, r, x, mid, y)
      modifies this`level, this`nodeCount, this`tail, this`nodes, nodes
      ensures Linkage() && Holds(nodes, TrimAt(s, a, c, start, end)) && nodes == x + y
      ensures removed == TrimmedCount(s, a, c, start, end)
    {
      hide *;
      Surroundings(a, c, s, r, x, mid, y);
      var first := l.forwards[0];
      removed := TrimBoth(l, r, start, end, s, a, c, x, mid, lefts, rights);
      HoldsExcised(x, mid, y, s, a, c, start, end);
      var gnos := UnlinkOver(lefts, rights, first, r, x, mid, y, s[a..c], TrimAt(s, a, c, start, end));
      TrimmedSum(s, a, c, start, end);
      removed := removed + gnos;
    }

    // What the two halves of the excision need to know.
    lemma Surroundings(a: nat, c: nat, s: seq<Interval>, r: Node?, x: seq<Node>, mid: seq<Node>, y: seq<Node>)
      requires Linkage() && Holds(nodes, s) && a <= c <= |s| && Around(a, c, s, r, x, mid, y)
      ensures Chained() && Distinct(nodes) && nodeCount == |nodes| == |s| + 1
      ensures nodes == x + mid + y && |x| == a + 1 && |mid| == c - a && Shape(x + y, level)
      ensures r == (if y == [] then null else y[0]) && r == (if c < |s| then nodes[c + 1] else null)
      ensures |nodes[a].forwards| > 0 && nodes[a].forwards[0] == (if mid == [] then r else mid[0])
      ensures Row(mid, r) && r !in mid
      ensures (if r == null then nodes[a] else tail) == (if y == [] then x[|x| - 1] else y[|y| - 1])
    {
      hide Linked, Row, Holds;
      assert nodeCount == |nodes|;
      HoldsLength(s);
    }

    lemma DistinctNodes(s: seq<Interval>)
      requires Linkage() && Holds(nodes, s)
      ensures Distinct(nodes) && |nodes| == |s| + 1
    {
    }

    lemma HoldsLength(s: seq<Interval>)
      requires Holds(nodes, s)
      ensures |nodes| == |s| + 1
    {
    }

    // nodes is x + mid + y, where mid is to go, and r is the node after mid.
    ghost predicate Around(a: nat, c: nat, s: seq<Interval>, r: Node?, x: seq<Node>, mid: seq<Node>, y: seq<Node>)
      requires a <= c <= |s| && |nodes| == |s| + 1
      reads this`tail, this`level, this`nodes, nodes`forwards, mid`forwards
    {
      && nodes == x + mid + y && |x| == a + 1 && |mid| == c - a && Shape(x + y, level)
      && r == (if y == [] then null else y[0]) && r == (if c < |s| then nodes[c + 1] else null)
      && |nodes[a].forwards| > 0 && nodes[a].forwards[0] == (if mid == [] then r else mid[0])
      && Row(mid, r) && r !in mid
      && (if r == null then nodes[a] else tail) == (if y == [] then x[|x| - 1] else y[|y| - 1])
    }

    lemma Flanks(a: nat, c: nat, s: seq<Interval>, x: seq<Node>, mid: seq<Node>, y: seq<Node>)
      requires Linkage() && Holds(nodes, s) && a <= c <= |s|
      requires x == nodes[..a + 1] && mid == nodes[a + 1..c + 1] && y == nodes[c + 1..]
      ensures nodes[..c + 1] == x + mid && |nodes[c].forwards| > 0
      ensures Around(a, c, s, nodes[c].forwards[0], x, mid, y)
    {
      hide Linked, Row, Distinct, Shape, Tight, Holds;
      HoldsLength(s);
      Seqs.Flanks(nodes, a, c, x, mid, y);
      Surround(x, mid, y);
    }

    // The partial nodes at both ends. Nothing but two intervals and the tail changes.
    method TrimBoth(l: Node, r: Node?, start: int, end: int, ghost s: seq<Interval>, ghost a: nat, ghost c: nat,
                    ghost x: seq<Node>, ghost mid: seq<Node>, ghost lefts: array<Node>, ghost rights: array<Node>)
      returns (removed: int)
      requires Chained() && Preds(lefts, x) && Preds(rights, x + mid) && Row(mid, r)
      requires Distinct(nodes) && Holds(nodes, s) && a <= c <= |s| && 1 <= start
      requires l == nodes[a] && r == (if c < |s| then nodes[c + 1] else null)
      modifies this`tail, nodes`start, nodes`end
      ensures Chained() && Preds(lefts, x) && Preds(rights, x + mid) && Row(mid, r)
      ensures Holds(nodes, BothTrimmed(s, a, c, start, end))
      ensures tail == (if r == null then l else old(tail)) && nodeCount == old(nodeCount)
      ensures removed == LeftCut(s, a, start) + RightCut(s, c, end)
    {
      hide *;
      HoldsLength(s);
      removed := LowerEnd(l, start, s, a);
      if r != null {
        var more := RaiseStart(r, start, end, s, a, c);
        removed := removed + more;
      } else {
        tail := l;
        NoRight(s, a, start, end);
      }
    }

    method LowerEnd(l: Node, start: int, ghost s: seq<Interval>, ghost a: nat) returns (removed: int)
      requires Distinct(nodes) && Holds(nodes, s) && a <= |s| && l == nodes[a] && 1 <= start
      modifies l`start, l`end
      ensures Holds(nodes, EndTrimmed(s, a, start)) && removed == LeftCut(s, a, start)
    {
      var saved := l.end - l.start + 1;
      var last := if l.end < start - 1 then l.end else start - 1;
      SetSpan(l, l.start, last, nodes, s, a);
      removed := saved - (l.end - l.start + 1);
      TrimEndCount(s[..a], start);
    }

    method RaiseStart(r: Node, start: int, end: int, ghost s: seq<Interval>, ghost a: nat, ghost c: nat)
      returns (removed: int)
      requires Distinct(nodes) && a <= c < |s| && Holds(nodes, EndTrimmed(s, a, start)) && r == nodes[c + 1]
      modifies r`start, r`end
      ensures Holds(nodes, BothTrimmed(s, a, c, start, end)) && removed == RightCut(s, c, end)
    {
      var saved := r.end - r.start + 1;
      SetSpan(r, if r.start < end + 1 then end + 1 else r.start, r.end, nodes, EndTrimmed(s, a, start), c + 1);
      removed := saved - (r.end - r.start + 1);
    }

    // Take mid out, where r is the node after it, if any.
    method UnlinkOver(lefts: array<Node>, rights: array<Node>, l: Node?, r: Node?,
                      ghost a: seq<Node>, ghost mid: seq<Node>, ghost c: seq<Node>,
                      ghost t: seq<Interval>, ghost rest: seq<Interval>) returns (gnos: int)
      requires Chained() && nodes == a + mid + c && a != [] && Shape(a + c, level)
      requires Preds(lefts, a) && Preds(rights, a + mid)
      requires l == (if mid == [] then r else mid[0]) && r == (if c == [] then null else c[0])
      requires Row(mid, r) && r !in mid && Spans(mid, t) && Holds(a + c, rest)
      requires nodeCount == |nodes| && tail == (if c == [] then a[|a| - 1] else c[|c| - 1])
      modifies this`level, this`nodeCount, this`nodes, nodes`forwards
      ensures Linkage() && Holds(nodes, rest) && nodes == a + c && gnos == Count(t)
    {
      assert forall i :: 0 <= i < |a| ==> a[i] == nodes[i];
      BridgeOver(lefts, rights, level, a, mid, c);
      gnos := Drop(l, r, a, mid, c, t, rest);
    }

    // ----- Levels -----------------------------------------------------------------------------

    // Drop the levels that have become empty.
    method LowerLevel()
      requires Chained()
      modifies this`level
      ensures Chained() && Tight(nodes, level)
    {
      while level > 1 && header.forwards[level - 1] == null
        invariant Chained()
      {
        ghost var q := NextAt(nodes, 0, level - 1);
        level := level - 1;
      }
      if level > 1 {
        ghost var q := NextAt(nodes, 0, level - 1);
      }
    }
  }
}
