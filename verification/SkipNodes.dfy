/** The nodes of the interval skip list: the links of every level, and how they are redirected in place. */
module SkipNodes {
  import opened IntervalEdits
  import opened Intervals
  import Seqs

  const MAXLEVEL := 32

  // One interval, or the header sentinel [0, 0]. The links are part of the node's own storage.
  class Node {
    const level: nat
    var start: int
    var end: int
    var forwards: seq<Node?>

    constructor (level: nat, start: int, end: int)
      ensures this.level == level && this.start == start && this.end == end
      ensures forwards == seq(level, _ => null)
    {
      this.level := level;
      this.start := start;
      this.end := end;
      forwards := seq(level, _ => null);
    }
  }

  // The height of a new node is random: any height is possible.
  method RandomLevel() returns (level: nat)
    ensures 1 <= level <= MAXLEVEL
  {
    level :| 1 <= level <= MAXLEVEL;
  }

  // ----- Node sequences -------------------------------------------------------------------

  ghost predicate Differ(s: seq<Node>, i: nat, j: nat)
    requires i < |s| && j < |s|
  {
    s[i] != s[j]
  }

  ghost predicate Distinct(s: seq<Node>) {
    forall i, j :: 0 <= i < j < |s| ==> Differ(s, i, j)
  }

  ghost predicate Apart(a: seq<Node>, b: seq<Node>) {
    forall n :: n in a ==> n !in b
  }

  // Heights within bounds: the header has every level, no other node is above "level".
  ghost predicate Shape(s: seq<Node>, level: nat) {
    && s != [] && s[0].level == MAXLEVEL && 1 <= level <= MAXLEVEL
    && (forall i :: 0 <= i < |s| ==> s[i].level >= 1)
    && (forall i :: 1 <= i < |s| ==> s[i].level <= level)
    && Distinct(s)
  }

  // Some node reaches the top level.
  ghost predicate Tight(s: seq<Node>, level: nat) {
    level == 1 || exists i :: 1 <= i < |s| && s[i].level == level
  }

  lemma DistinctParts(a: seq<Node>, b: seq<Node>)
    requires Distinct(a + b)
    ensures Distinct(a) && Distinct(b) && Apart(a, b) && Apart(b, a)
  {
    var s := a + b;
    forall i, j | 0 <= i < j < |a| ensures Differ(a, i, j) {
      assert Differ(s, i, j);
    }
    forall i, j | 0 <= i < j < |b| ensures Differ(b, i, j) {
      assert Differ(s, |a| + i, |a| + j);
    }
    forall i, j | 0 <= i < |a| && 0 <= j < |b| ensures a[i] != b[j] {
      assert Differ(s, i, |a| + j);
    }
  }

  lemma DistinctConcat(a: seq<Node>, b: seq<Node>)
    requires Distinct(a) && Distinct(b) && Apart(a, b)
    ensures Distinct(a + b)
  {
    forall i, j | 0 <= i < j < |a| + |b| ensures Differ(a + b, i, j) {
      if j < |a| {
        assert Differ(a, i, j);
      } else if i >= |a| {
        assert Differ(b, i - |a|, j - |a|);
      } else {
        assert a[i] in a && b[j - |a|] in b;
      }
    }
  }

  lemma ShapePrefix(a: seq<Node>, b: seq<Node>, level: nat)
    requires Shape(a + b, level) && a != []
    ensures Shape(a, level)
    ensures forall i :: 0 <= i < |b| ==> 1 <= b[i].level <= level
  {
    DistinctParts(a, b);
    assert forall i :: 0 <= i < |a| ==> a[i] == (a + b)[i];
    assert forall i :: 0 <= i < |b| ==> b[i] == (a + b)[|a| + i];
  }

  lemma ShapeConcat(a: seq<Node>, b: seq<Node>, level: nat)
    requires Shape(a, level) && Distinct(b) && Apart(a, b)
    requires forall i :: 0 <= i < |b| ==> 1 <= b[i].level <= level
    ensures Shape(a + b, level)
  {
    DistinctConcat(a, b);
  }

  lemma ShapeInsert(a: seq<Node>, b: seq<Node>, x: Node, level: nat)
    requires Shape(a + b, level) && a != [] && x !in a + b && 1 <= x.level <= MAXLEVEL
    ensures Shape(a + [x] + b, if x.level > level then x.level else level) && Shape(a, level) && Apart(b, a)
  {
    var top := if x.level > level then x.level else level;
    DistinctParts(a, b);
    ShapePrefix(a, b, level);
    assert Shape(a, top) && Distinct([x]);
    ShapeConcat(a, [x], top);
    ShapeConcat(a + [x], b, top);
  }

  lemma TightInsert(a: seq<Node>, b: seq<Node>, x: Node, level: nat)
    requires Tight(a + b, level) && a != []
    ensures Tight(a + [x] + b, if x.level > level then x.level else level)
  {
    var s, t := a + b, a + [x] + b;
    assert t[|a|] == x;
    if x.level <= level && level != 1 {
      var i :| 1 <= i < |s| && s[i].level == level;
      assert t[if i < |a| then i else i + 1] == s[i];
    }
  }

  lemma ShapeCut(a: seq<Node>, mid: seq<Node>, c: seq<Node>, level: nat)
    requires Shape(a + mid + c, level) && a != []
    ensures Shape(a + c, level) && Shape(a + mid, level) && Shape(a, level)
    ensures Apart(mid, a) && Apart(mid, c) && Apart(c, a)
    ensures forall i :: 0 <= i < |mid| ==> 1 <= mid[i].level <= level
  {
    ShapePrefix(a + mid, c, level);
    ShapePrefix(a, mid, level);
    DistinctParts(a + mid, c);
    DistinctParts(a, mid);
    assert forall n :: n in a ==> n in a + mid;
    assert forall n :: n in mid ==> n in a + mid;
    ShapeConcat(a, c, level);
  }

  // ----- The first, and the last, node of s that is tall enough to have a link at level l ----

  ghost function FirstTaller(s: seq<Node>, l: nat): Node? {
    if s == [] then null
    else if s[0].level > l then s[0]
    else FirstTaller(s[1..], l)
  }

  ghost function LastTaller(s: seq<Node>, l: nat): Node? {
    if s == [] then null
    else if s[|s| - 1].level > l then s[|s| - 1]
    else LastTaller(s[..|s| - 1], l)
  }

  lemma {:induction false} FirstTallerAt(s: seq<Node>, l: nat) returns (q: nat)
    ensures q <= |s| && forall j :: 0 <= j < q ==> s[j].level <= l
    ensures q == |s| <==> FirstTaller(s, l) == null
    ensures q < |s| ==> s[q].level > l && FirstTaller(s, l) == s[q]
  {
    if s == [] || s[0].level > l {
      q := 0;
    } else {
      var r := FirstTallerAt(s[1..], l);
      q := r + 1;
      assert forall j :: 1 <= j < q ==> s[j] == s[1..][j - 1];
    }
  }

  lemma {:induction false} LastTallerIs(s: seq<Node>, l: nat, p: nat)
    requires p < |s| && s[p].level > l
    requires forall j :: p < j < |s| ==> s[j].level <= l
    ensures LastTaller(s, l) == s[p]
  {
    if p < |s| - 1 {
      LastTallerIs(s[..|s| - 1], l, p);
    }
  }

  lemma {:induction false} LastTallerAt(s: seq<Node>, l: nat) returns (p: nat)
    requires s != [] && s[0].level > l
    ensures p < |s| && s[p].level > l && LastTaller(s, l) == s[p]
    ensures forall j :: p < j < |s| ==> s[j].level <= l
  {
    p := |s| - 1;
    if s[p].level <= l {
      var t := s[..|s| - 1];
      var r := LastTallerAt(t, l);
      p := r;
      assert forall j :: 0 <= j < |t| ==> s[j] == t[j];
    }
  }

  lemma {:induction false} FirstTallerConcat(a: seq<Node>, b: seq<Node>, l: nat)
    ensures FirstTaller(a + b, l) == if FirstTaller(a, l) != null then FirstTaller(a, l) else FirstTaller(b, l)
  {
    if a == [] {
      assert a + b == b;
    } else {
      assert (a + b)[1..] == a[1..] + b;
      FirstTallerConcat(a[1..], b, l);
    }
  }

  lemma FirstTallerCons(x: Node, b: seq<Node>, l: nat)
    ensures FirstTaller([x] + b, l) == if x.level > l then x else FirstTaller(b, l)
  {
    assert ([x] + b)[1..] == b;
  }

  // s[j] is the last taller node exactly when no later node of s is tall enough.
  lemma LastHasNoSuccessor(s: seq<Node>, j: nat, l: nat)
    requires Distinct(s) && j < |s| && s[j].level > l
    ensures LastTaller(s, l) == s[j] <==> FirstTaller(s[j + 1..], l) == null
  {
    var q := FirstTallerAt(s[j + 1..], l);
    if q == |s| - j - 1 {
      assert forall i :: j < i < |s| ==> s[i] == s[j + 1..][i - j - 1];
      LastTallerIs(s, l, j);
    } else {
      LastBeyond(s, j + 1 + q, l);
      var p :| j + 1 + q <= p < |s| && LastTaller(s, l) == s[p];
      assert Differ(s, j, p);
    }
  }

  lemma {:induction false} LastBeyond(s: seq<Node>, i: nat, l: nat)
    requires i < |s| && s[i].level > l
    ensures exists p :: i <= p < |s| && LastTaller(s, l) == s[p]
  {
    if s[|s| - 1].level <= l {
      LastBeyond(s[..|s| - 1], i, l);
      var p :| i <= p < |s| - 1 && LastTaller(s[..|s| - 1], l) == s[..|s| - 1][p];
      assert LastTaller(s, l) == s[p];
    }
  }

  // ----- Links ----------------------------------------------------------------------------

  // Level l is the list of the nodes taller than l, in order.
  ghost predicate Linked(s: seq<Node>)
    reads s`forwards
  {
    && (forall i :: 0 <= i < |s| ==> |s[i].forwards| == s[i].level)
    && (forall i, l :: 0 <= i < |s| && 0 <= l < s[i].level ==> s[i].forwards[l] == FirstTaller(s[i + 1..], l))
  }

  // The node that s[p] links to at level l.
  lemma NextAt(s: seq<Node>, p: nat, l: nat) returns (q: nat)
    requires Linked(s) && p < |s| && l < s[p].level
    ensures p < q <= |s| && forall j :: p < j < q ==> s[j].level <= l
    ensures q == |s| <==> s[p].forwards[l] == null
    ensures q < |s| ==> s[q].level > l && s[p].forwards[l] == s[q]
  {
    var r := FirstTallerAt(s[p + 1..], l);
    q := p + 1 + r;
    assert forall j :: p < j < |s| ==> s[j] == s[p + 1..][j - p - 1];
  }

  ghost predicate Lowest(s: seq<Node>) {
    forall i :: 0 <= i < |s| ==> s[i].level >= 1
  }

  // At the lowest level every node is followed by its neighbour.
  lemma NextNode(a: seq<Node>, c: seq<Node>)
    requires a != [] && Linked(a + c) && Lowest(a + c)
    ensures |a[|a| - 1].forwards| > 0
    ensures a[|a| - 1].forwards[0] == if c != [] then c[0] else null
  {
    var s, p := a + c, |a| - 1;
    assert s[p] == a[p];
    var q := NextAt(s, p, 0);
    assert p + 1 < |s| ==> s[p + 1] == c[0];
  }

  lemma LastLinks(s: seq<Node>)
    requires s != [] && Linked(s) && Lowest(s)
    ensures s[|s| - 1].forwards[0] == null
    ensures |s| > 1 ==> s[|s| - 2].forwards[0] == s[|s| - 1]
  {
    if |s| > 1 {
      assert s[|s| - 2 + 1..][0] == s[|s| - 1];
    }
  }

  // Where the links of p[j] go when p is followed by q: inside p, or to the first taller node of q.
  ghost function Hook(p: seq<Node>, q: seq<Node>, j: nat, l: nat): Node?
    requires j < |p|
  {
    if p[j] == LastTaller(p, l) then FirstTaller(q, l) else FirstTaller(p[j + 1..], l)
  }

  ghost predicate Hooked(p: seq<Node>, q: seq<Node>)
    reads p`forwards
  {
    && (forall j :: 0 <= j < |p| ==> |p[j].forwards| == p[j].level)
    && (forall j, l :: 0 <= j < |p| && 0 <= l < p[j].level ==> p[j].forwards[l] == Hook(p, q, j, l))
  }

  // Hooked, with the levels below i already redirected from q to q'.
  ghost predicate Rehooked(p: seq<Node>, q: seq<Node>, q': seq<Node>, i: nat)
    reads p`forwards
  {
    && (forall j :: 0 <= j < |p| ==> |p[j].forwards| == p[j].level)
    && (forall j, l :: 0 <= j < |p| && 0 <= l < p[j].level ==>
          p[j].forwards[l] == Hook(p, if l < i then q' else q, j, l))
  }

  lemma SplitLinks(p: seq<Node>, q: seq<Node>)
    requires Distinct(p) && Linked(p + q)
    ensures Hooked(p, q) && Linked(q)
  {
    var s := p + q;
    forall j | 0 <= j < |p| ensures |p[j].forwards| == p[j].level {
      assert s[j] == p[j];
    }
    forall j, l | 0 <= j < |p| && 0 <= l < p[j].level ensures p[j].forwards[l] == Hook(p, q, j, l) {
      assert s[j] == p[j] && s[j + 1..] == p[j + 1..] + q;
      FirstTallerConcat(p[j + 1..], q, l);
      LastHasNoSuccessor(p, j, l);
    }
    forall i | 0 <= i < |q| ensures s[|p| + i] == q[i] && s[|p| + i + 1..] == q[i + 1..] {
    }
  }

  lemma JoinLinks(p: seq<Node>, q: seq<Node>)
    requires Distinct(p) && Hooked(p, q) && Linked(q)
    ensures Linked(p + q)
  {
    var s := p + q;
    forall i | 0 <= i < |s| ensures |s[i].forwards| == s[i].level {
      assert s[i] == if i < |p| then p[i] else q[i - |p|];
    }
    forall i, l | 0 <= i < |s| && 0 <= l < s[i].level ensures s[i].forwards[l] == FirstTaller(s[i + 1..], l) {
      if i < |p| {
        assert s[i] == p[i] && s[i + 1..] == p[i + 1..] + q;
        FirstTallerConcat(p[i + 1..], q, l);
        LastHasNoSuccessor(p, i, l);
      } else {
        assert s[i] == q[i - |p|] && s[i + 1..] == q[i - |p| + 1..];
      }
    }
  }

  method SetLink(left: Node, i: nat, target: Node?,
                 ghost a: seq<Node>, ghost q: seq<Node>, ghost q': seq<Node>, ghost p: nat)
    requires Distinct(a) && Rehooked(a, q, q', i)
    requires p < |a| && left == a[p] == LastTaller(a, i) && i < left.level && target == FirstTaller(q', i)
    modifies left`forwards
    ensures left.forwards == old(left.forwards)[i := target]
    ensures Rehooked(a, q, q', i + 1)
  {
    left.forwards := left.forwards[i := target];
  }

  // ----- Putting x between a and b ----------------------------------------------------------

  // For each level of x: x takes over the link of its predecessor, which then points to x.
  method Thread(preds: array<Node>, x: Node, ghost a: seq<Node>, ghost b: seq<Node>)
    requires a != [] && a[0].level == MAXLEVEL && Linked(a + b)
    requires Distinct(a) && Apart(b, a)
    requires x !in a && x !in b && x.level <= MAXLEVEL == preds.Length && |x.forwards| == x.level
    requires forall l :: 0 <= l < x.level ==> preds[l] == LastTaller(a, l)
    modifies a`forwards, x`forwards
    ensures Linked(a + [x] + b)
  {
    SplitLinks(a, b);
    var i := 0;
    while i < x.level
      invariant 0 <= i <= x.level
      invariant |x.forwards| == x.level && forall l :: 0 <= l < i ==> x.forwards[l] == FirstTaller(b, l)
      invariant Rehooked(a, b, [x] + b, i)
      invariant Linked(b)
    {
      ghost var p := LastTallerAt(a, i);
      FirstTallerCons(x, b, i);
      var left := preds[i];
      assert left == a[p] && left in a;
      x.forwards := x.forwards[i := left.forwards[i]];
      SetLink(left, i, x, a, b, [x] + b, p);
      i := i + 1;
    }
    LinkedCons(x, b);
    AllRehooked(a, b, x);
    JoinLinks(a, [x] + b);
    Seqs.Assoc(a, [x], b);
  }

  lemma LinkedCons(x: Node, b: seq<Node>)
    requires |x.forwards| == x.level && Linked(b)
    requires forall l :: 0 <= l < x.level ==> x.forwards[l] == FirstTaller(b, l)
    ensures Linked([x] + b)
  {
    var s := [x] + b;
    assert s[1..] == b;
    assert forall i :: 1 <= i < |s| ==> s[i] == b[i - 1] && s[i + 1..] == b[i..];
  }

  lemma AllRehooked(a: seq<Node>, b: seq<Node>, x: Node)
    requires Rehooked(a, b, [x] + b, x.level)
    ensures Hooked(a, [x] + b)
  {
    forall j, l | 0 <= j < |a| && 0 <= l < a[j].level ensures a[j].forwards[l] == Hook(a, [x] + b, j, l) {
      FirstTallerCons(x, b, l);
    }
  }

  // Put x at the end of a, where preds are the last nodes of every level; x becomes the last on its own levels.
  method Append(preds: array<Node>, x: Node, ghost a: seq<Node>)
    requires a != [] && a[0].level == MAXLEVEL && Linked(a) && Distinct(a)
    requires x !in a && 1 <= x.level <= MAXLEVEL == preds.Length && x.forwards == seq(x.level, _ => null)
    requires forall l :: 0 <= l < MAXLEVEL ==> preds[l] == LastTaller(a, l)
    modifies a`forwards, preds
    ensures Linked(a + [x]) && forall l :: 0 <= l < MAXLEVEL ==> preds[l] == LastTaller(a + [x], l)
  {
    Seqs.NoUnit(a);
    SplitLinks(a, []);
    LinkedCons(x, []);
    var i := 0;
    while i < x.level
      invariant 0 <= i <= x.level
      invariant forall l :: 0 <= l < MAXLEVEL ==> preds[l] == (if l < i then x else LastTaller(a, l))
      invariant Rehooked(a, [], [x] + [], i) && Linked([x] + [])
    {
      ghost var p := LastTallerAt(a, i);
      FirstTallerCons(x, [], i);
      var left := preds[i];
      assert left == a[p] && left in a;
      SetLink(left, i, x, a, [], [x] + [], p);
      preds[i] := x;
      i := i + 1;
    }
    AllRehooked(a, [], x);
    JoinLinks(a, [x] + []);
    assert [x] + [] == [x] && (a + [x])[..|a|] == a;
  }

  // ----- Taking mid out from between a and c -------------------------------------------------

  // lefts[i]->forwards[i] = rights[i]->forwards[i] on every level.
  method BridgeOver(lefts: array<Node>, rights: array<Node>, height: nat,
                    ghost a: seq<Node>, ghost mid: seq<Node>, ghost c: seq<Node>)
    requires Linked(a + mid + c) && Shape(a + mid + c, height) && a != []
    requires height <= MAXLEVEL == lefts.Length == rights.Length
    requires forall l :: 0 <= l < height ==> lefts[l] == LastTaller(a, l) && rights[l] == LastTaller(a + mid, l)
    modifies a`forwards
    ensures Linked(a + c) && forall i :: 0 <= i < |mid| ==> mid[i].forwards == old(mid[i].forwards)
  {
    Detach(a, mid, c, height);
    RightLinks(rights, a + mid, c, 0, height);
    SkipFrom(lefts, rights, 0, height, a, mid, c);
    Reattach(a, mid, c, height);
  }

  // Levels below x's height point to x, the first node of c; the others skip to what comes after it.
  method BridgeTo(lefts: array<Node>, rights: array<Node>, x: Node, height: nat,
                  ghost a: seq<Node>, ghost mid: seq<Node>, ghost c: seq<Node>)
    requires Linked(a + mid + c) && Shape(a + mid + c, height) && a != []
    requires c != [] && x == c[0] && x.level <= height <= MAXLEVEL == lefts.Length == rights.Length
    requires forall l :: 0 <= l < height ==> lefts[l] == LastTaller(a, l)
    requires forall l :: x.level <= l < height ==> rights[l] == LastTaller(a + mid, l)
    modifies a`forwards
    ensures Linked(a + c) && forall i :: 0 <= i < |mid| ==> mid[i].forwards == old(mid[i].forwards)
  {
    Detach(a, mid, c, height);
    RightLinks(rights, a + mid, c, x.level, height);
    var i := 0;
    while i < x.level
      invariant 0 <= i <= x.level
      invariant forall l :: x.level <= l < height ==> l < |rights[l].forwards| && rights[l].forwards[l] == FirstTaller(c, l)
      invariant Rehooked(a, mid + c, c, i) && Linked(c)
      invariant forall j :: 0 <= j < |mid| ==> mid[j].forwards == old(mid[j].forwards)
    {
      ghost var p := LastTallerAt(a, i);
      var left := lefts[i];
      assert left == a[p] && left in a;
      SetLink(left, i, x, a, mid + c, c, p);
      i := i + 1;
    }
    SkipFrom(lefts, rights, x.level, height, a, mid, c);
    Reattach(a, mid, c, height);
  }

  method SkipFrom(lefts: array<Node>, rights: array<Node>, from: nat, height: nat,
                  ghost a: seq<Node>, ghost mid: seq<Node>, ghost c: seq<Node>)
    requires a != [] && a[0].level == MAXLEVEL && Distinct(a) && Apart(mid, a) && Apart(c, a)
    requires from <= height <= MAXLEVEL == lefts.Length == rights.Length
    requires forall l :: from <= l < height ==> lefts[l] == LastTaller(a, l)
    requires forall l :: from <= l < height ==> l < |rights[l].forwards| && rights[l].forwards[l] == FirstTaller(c, l)
    requires Rehooked(a, mid + c, c, from) && Linked(c)
    modifies a`forwards
    ensures Rehooked(a, mid + c, c, height) && Linked(c)
    ensures forall i :: 0 <= i < |mid| ==> mid[i].forwards == old(mid[i].forwards)
  {
    var i := from;
    while i < height
      invariant from <= i <= height
      invariant forall l :: i <= l < height ==> l < |rights[l].forwards| && rights[l].forwards[l] == FirstTaller(c, l)
      invariant Rehooked(a, mid + c, c, i) && Linked(c)
      invariant forall j :: 0 <= j < |mid| ==> mid[j].forwards == old(mid[j].forwards)
    {
      ghost var p := LastTallerAt(a, i);
      var left := lefts[i];
      assert left == a[p] && left in a;
      SetLink(left, i, rights[i].forwards[i], a, mid + c, c, p);
      i := i + 1;
    }
  }

  lemma Detach(a: seq<Node>, mid: seq<Node>, c: seq<Node>, height: nat)
    requires Linked(a + mid + c) && Shape(a + mid + c, height) && a != []
    ensures Hooked(a + mid, c) && Linked(c) && Rehooked(a, mid + c, c, 0)
    ensures a[0].level == MAXLEVEL && Distinct(a) && Apart(mid, a) && Apart(c, a)
  {
    ShapeCut(a, mid, c, height);
    SplitLinks(a + mid, c);
    Seqs.Assoc(a, mid, c);
    SplitLinks(a, mid + c);
  }

  lemma RightLinks(rights: array<Node>, s: seq<Node>, c: seq<Node>, from: nat, height: nat)
    requires Hooked(s, c) && s != [] && s[0].level == MAXLEVEL && height <= MAXLEVEL == rights.Length
    requires forall l :: from <= l < height ==> rights[l] == LastTaller(s, l)
    ensures forall l :: from <= l < height ==> l < |rights[l].forwards| && rights[l].forwards[l] == FirstTaller(c, l)
  {
    forall l | from <= l < height ensures l < |rights[l].forwards| && rights[l].forwards[l] == FirstTaller(c, l) {
      var p := LastTallerAt(s, l);
      assert s[p].forwards[l] == Hook(s, c, p, l);
    }
  }

  lemma Reattach(a: seq<Node>, mid: seq<Node>, c: seq<Node>, height: nat)
    requires Rehooked(a, mid + c, c, height) && Linked(c) && Shape(a + mid + c, height) && a != []
    ensures Linked(a + c)
  {
    ShapeCut(a, mid, c, height);
    forall j, l | 0 <= j < |a| && 0 <= l < a[j].level ensures a[j].forwards[l] == Hook(a, c, j, l) {
      if l >= height {
        var q := FirstTallerAt(mid, l);
        FirstTallerConcat(mid, c, l);
      }
    }
    JoinLinks(a, c);
  }

  // The bottom level runs through mid and on to r.
  ghost predicate Row(mid: seq<Node>, r: Node?)
    reads mid`forwards
  {
    forall i :: 0 <= i < |mid| ==>
      |mid[i].forwards| > 0 && mid[i].forwards[0] == (if i + 1 < |mid| then mid[i + 1] else r)
  }

  lemma MiddleRow(a: seq<Node>, mid: seq<Node>, c: seq<Node>)
    requires Linked(a + mid + c) && Lowest(a + mid + c)
    ensures Row(mid, if c != [] then c[0] else null)
  {
    var s := a + mid + c;
    forall i | 0 <= i < |mid|
      ensures |mid[i].forwards| > 0
      ensures mid[i].forwards[0] == if i + 1 < |mid| then mid[i + 1] else if c != [] then c[0] else null
    {
      assert s[|a| + i] == mid[i];
      var n := NextAt(s, |a| + i, 0);
    }
  }

  // Free the nodes from l up to r: how many, and how many gnos they held.
  method Discard(l: Node?, r: Node?, ghost mid: seq<Node>, ghost t: seq<Interval>) returns (count: nat, gnos: int)
    requires Spans(mid, t) && Row(mid, r) && r !in mid && l == (if mid == [] then r else mid[0])
    ensures count == |mid| && gnos == Count(t)
  {
    var x := l;
    count, gnos := 0, 0;
    while x != null && x != r
      invariant count <= |mid| && x == (if count < |mid| then mid[count] else r)
      invariant gnos == Count(t[..count]) && Row(mid, r) && Spans(mid, t)
      decreases |mid| - count
    {
      assert mid[count].forwards[0] == (if count + 1 < |mid| then mid[count + 1] else r);
      var next := x.forwards[0];
      assert x.start == t[count].start && x.end == t[count].end;
      gnos := gnos + (x.end - x.start + 1);
      CountNext(t, count);
      count := count + 1;
      x := next;
    }
    assert t[..count] == t;
  }

  // ----- What the nodes hold ------------------------------------------------------------------

  // The header holds [0, 0] and the other nodes hold the intervals of t.
  ghost predicate Holds(s: seq<Node>, t: seq<Interval>)
    reads s`start, s`end
  {
    && |s| == |t| + 1
    && s[0].start == s[0].end == 0
    && (forall i :: 0 <= i < |t| ==> s[i + 1].start == t[i].start && s[i + 1].end == t[i].end)
  }

  ghost predicate Spans(mid: seq<Node>, t: seq<Interval>)
    reads mid`start, mid`end
  {
    |mid| == |t| && forall i :: 0 <= i < |t| ==> mid[i].start == t[i].start && mid[i].end == t[i].end
  }

  lemma HoldsInsert(a: seq<Node>, b: seq<Node>, t: seq<Interval>, x: Node)
    requires a != [] && Holds(a + b, t)
    ensures Holds(a + [x] + b, Inserted(t, |a| - 1, Interval(x.start, x.end)))
  {
    var s, n := a + b, a + [x] + b;
    assert forall i :: 0 <= i < |a| ==> n[i] == s[i];
    assert forall i :: |a| < i < |n| ==> n[i] == s[i - 1];
  }

  lemma HoldsCut(a: seq<Node>, mid: seq<Node>, c: seq<Node>, t: seq<Interval>, p: nat, q: nat)
    requires |a| == p + 1 && |mid| == q - p && q <= |t| && Holds(a + mid + c, t)
    ensures Spans(mid, t[p..q]) && Holds(a + c, t[..p] + t[q..])
  {
    var s, n, u := a + mid + c, a + c, t[..p] + t[q..];
    assert n[0] == s[0];
    forall i | 0 <= i < |u| ensures n[i + 1].start == u[i].start && n[i + 1].end == u[i].end {
      var k := if i < p then i else i + |mid|;
      assert n[i + 1] == s[k + 1] && u[i] == t[k];
    }
    forall i | 0 <= i < |mid| ensures mid[i].start == t[p..q][i].start && mid[i].end == t[p..q][i].end {
      assert mid[i] == s[|a| + i] && t[p..q][i] == t[p + i];
    }
  }

  lemma HoldsExcised(x: seq<Node>, mid: seq<Node>, y: seq<Node>,
                     s: seq<Interval>, a: nat, c: nat, start: int, end: int)
    requires a <= c <= |s| && |x| == a + 1 && |mid| == c - a
    requires Holds(x + mid + y, BothTrimmed(s, a, c, start, end))
    ensures Holds(x + y, TrimAt(s, a, c, start, end)) && Spans(mid, s[a..c])
  {
    hide *;
    TrimmedAt(s, a, c, start, end);
    HoldsCut(x, mid, y, BothTrimmed(s, a, c, start, end), a, c);
  }

  lemma HoldsAbsorbed(x: seq<Node>, mid: seq<Node>, y: seq<Node>, s: seq<Interval>, a: nat, b: nat, v: Interval)
    requires a < b <= |s| && |x| == a + 1 && |mid| == b - 1 - a
    requires Holds(x + mid + y, s[b - 1 := v])
    ensures Holds(x + y, Joined(s, a, b, v)) && Spans(mid, s[a..b - 1])
    ensures Count(s[a..b - 1]) == Count(s[a..b]) - (s[b - 1].end - s[b - 1].start + 1)
  {
    hide *;
    LastOfSlice(s, a, b, v);
    HoldsCut(x, mid, y, s[b - 1 := v], a, b - 1);
  }

  // Change one node's interval; the header keeps [0, 0].
  method SetSpan(x: Node, start: int, end: int, ghost s: seq<Node>, ghost t: seq<Interval>, ghost k: nat)
    requires Distinct(s) && Holds(s, t) && k <= |t| && x == s[k] && (k == 0 ==> start == end == 0)
    modifies x`start, x`end
    ensures x.start == start && x.end == end
    ensures Holds(s, if k == 0 then t else t[k - 1 := Interval(start, end)])
  {
    x.start, x.end := start, end;
    forall i | 0 <= i < |s| && i != k ensures s[i] != x {
      assert Differ(s, if i < k then i else k, if i < k then k else i);
    }
  }

  // The last whole node to remove ends before the last node to keep starts only if it comes before it.
  lemma EndBeforeStart(s: seq<Node>, t: seq<Interval>, c: nat, a: nat)
    requires Holds(s, t) && Canonical(t) && c <= |t| && a <= |t|
    ensures s[c].end < s[a].start <==> c < a
  {
    assert 0 < c < a ==> Gap(t, c - 1, a - 1);
    assert 0 < a < c ==> Gap(t, a - 1, c - 1);
    assert c > 0 ==> s[c].end == t[c - 1].end;
    assert a > 0 ==> s[a].start == t[a - 1].start;
  }
}
