/** Sorted, non-touching intervals of transaction numbers, and the finite sets they stand for. */
module Intervals {
  import Seqs

  const GNO_INITIAL := 1

  // The largest value of gno_t. A stored gno lies below it, so that "end + 1" never overflows.
  const GNO_MAX := 0x7fff_ffff_ffff_ffff

  datatype Interval = Interval(start: int, end: int)

  predicate ValidRange(start: int, end: int) {
    GNO_INITIAL <= start <= end
  }

  lemma StartsAtOne(start: int, end: int)
    requires ValidRange(start, end)
    ensures 1 <= start
  {
  }

  predicate InRange(g: int, start: int, end: int) {
    start <= g <= end
  }

  function Range(start: int, end: int): set<int> {
    set g | start <= g <= end && InRange(g, start, end)
  }

  lemma {:induction false} RangeSize(start: int, end: int)
    requires start <= end + 1
    ensures |Range(start, end)| == end - start + 1
    decreases end - start + 1
  {
    if start == end + 1 {
      assert Range(start, end) == {};
    } else {
      RangeSize(start, end - 1);
      assert Range(start, end) == Range(start, end - 1) + {end};
    }
  }

  lemma OneMore(s: set<int>, g: int)
    requires g !in s
    ensures |s + {g}| == |s| + 1
  {
  }

  predicate Gap(s: seq<Interval>, i: nat, j: nat)
    requires i < |s| && j < |s|
  {
    s[i].end + 1 < s[j].start
  }

  // What every skip list keeps: intervals ascend and a gap separates any two of them.
  ghost predicate Canonical(s: seq<Interval>) {
    && (forall i :: 0 <= i < |s| ==> ValidRange(s[i].start, s[i].end) && s[i].end < GNO_MAX)
    && (forall i, j :: 0 <= i < j < |s| ==> Gap(s, i, j))
  }

  ghost function Gnos(s: seq<Interval>): set<int> {
    if s == [] then {} else Range(s[0].start, s[0].end) + Gnos(s[1..])
  }

  ghost function Count(s: seq<Interval>): int {
    if s == [] then 0 else s[0].end - s[0].start + 1 + Count(s[1..])
  }

  lemma {:induction false} Concat(a: seq<Interval>, b: seq<Interval>)
    ensures Gnos(a + b) == Gnos(a) + Gnos(b)
    ensures Count(a + b) == Count(a) + Count(b)
  {
    if a == [] {
      assert a + b == b;
    } else {
      assert (a + b)[1..] == a[1..] + b;
      Concat(a[1..], b);
    }
  }

  lemma Split(s: seq<Interval>, i: nat)
    requires i <= |s|
    ensures Gnos(s) == Gnos(s[..i]) + Gnos(s[i..])
    ensures Count(s) == Count(s[..i]) + Count(s[i..])
  {
    hide Gnos, Count;
    Seqs.Halves(s, i);
    Concat(s[..i], s[i..]);
  }

  lemma Single(x: Interval)
    ensures Gnos([x]) == Range(x.start, x.end) && Count([x]) == x.end - x.start + 1
  {
    assert [x][1..] == [];
  }

  lemma {:induction false} Covers(s: seq<Interval>, i: nat, g: int)
    requires i < |s| && s[i].start <= g <= s[i].end
    ensures g in Gnos(s)
  {
    if i > 0 { Covers(s[1..], i - 1, g); }
  }

  // Every element lies in some interval.
  lemma {:induction false} Find(s: seq<Interval>, g: int) returns (i: nat)
    requires g in Gnos(s)
    ensures i < |s| && s[i].start <= g <= s[i].end
  {
    if s[0].start <= g <= s[0].end {
      i := 0;
    } else {
      var j := Find(s[1..], g);
      i := j + 1;
    }
  }

  lemma {:induction false} Within(s: seq<Interval>, lo: int, hi: int)
    requires forall i :: 0 <= i < |s| ==> lo <= s[i].start && s[i].end <= hi
    ensures forall g :: g in Gnos(s) ==> lo <= g <= hi
  {
    if s != [] { Within(s[1..], lo, hi); }
  }

  lemma CanonicalConcat(a: seq<Interval>, b: seq<Interval>)
    requires Canonical(a) && Canonical(b)
    requires a != [] && b != [] ==> a[|a| - 1].end + 1 < b[0].start
    ensures Canonical(a + b)
  {
    forall i, j | 0 <= i < j < |a| + |b| ensures Gap(a + b, i, j) {
      if j < |a| {
        assert Gap(a, i, j);
      } else if i >= |a| {
        assert Gap(b, i - |a|, j - |a|);
      } else {
        assert i < |a| - 1 ==> Gap(a, i, |a| - 1);
        assert j > |a| ==> Gap(b, 0, j - |a|);
      }
    }
  }

  lemma CanonicalSplit(a: seq<Interval>, b: seq<Interval>)
    requires Canonical(a + b)
    ensures Canonical(a) && Canonical(b)
    ensures a != [] && b != [] ==> a[|a| - 1].end + 1 < b[0].start
  {
    var s := a + b;
    assert forall i :: 0 <= i < |a| ==> a[i] == s[i];
    assert forall i :: 0 <= i < |b| ==> b[i] == s[|a| + i];
    assert forall i, j :: 0 <= i < j < |a| ==> Gap(s, i, j) ==> Gap(a, i, j);
    forall i, j | 0 <= i < j < |b| ensures Gap(b, i, j) {
      assert Gap(s, |a| + i, |a| + j);
    }
    assert a != [] && b != [] ==> Gap(s, |a| - 1, |a|);
  }

  lemma Parts(s: seq<Interval>, k: nat)
    requires Canonical(s) && k <= |s|
    ensures s == s[..k] + s[k..] && Canonical(s[..k]) && Canonical(s[k..])
    ensures 0 < k < |s| ==> s[k - 1].end + 1 < s[k].start
  {
    assert s == s[..k] + s[k..];
    CanonicalSplit(s[..k], s[k..]);
  }

  // A canonical sequence reaches from the start of its first interval to the end of its last.
  lemma Bounds(s: seq<Interval>)
    requires Canonical(s) && s != []
    ensures forall i :: 0 <= i < |s| ==> s[0].start <= s[i].start && s[i].end <= s[|s| - 1].end
    ensures forall g :: g in Gnos(s) ==> s[0].start <= g <= s[|s| - 1].end
  {
    forall i | 0 <= i < |s| ensures s[0].start <= s[i].start && s[i].end <= s[|s| - 1].end {
      assert i > 0 ==> Gap(s, 0, i);
      assert i < |s| - 1 ==> Gap(s, i, |s| - 1);
    }
    Within(s, s[0].start, s[|s| - 1].end);
  }

  // The part of a canonical sequence from s[1] on is canonical and lies beyond s[0] and a gap.
  lemma Tail(s: seq<Interval>)
    requires Canonical(s) && s != []
    ensures Canonical(s[1..])
    ensures forall g :: g in Gnos(s[1..]) ==> s[0].end + 1 < g
    ensures s[0].start in Gnos(s)
    ensures Gnos(s[1..]) == Gnos(s) - Range(s[0].start, s[0].end)
  {
    Parts(s, 1);
    if |s| > 1 { Bounds(s[1..]); }
  }

  // The counter kept by the list is the number of distinct gnos.
  lemma {:induction false} CountIsCardinality(s: seq<Interval>)
    requires Canonical(s)
    ensures Count(s) == |Gnos(s)|
  {
    if s != [] {
      Tail(s);
      CountIsCardinality(s[1..]);
      RangeSize(s[0].start, s[0].end);
      assert Range(s[0].start, s[0].end) !! Gnos(s[1..]);
    }
  }

  // A canonical sequence is determined by its set, whatever built it.
  lemma {:induction false} CanonicalUnique(a: seq<Interval>, b: seq<Interval>)
    requires Canonical(a) && Canonical(b) && Gnos(a) == Gnos(b)
    ensures a == b
  {
    if a != [] { Tail(a); }
    if b != [] { Tail(b); }
    assert a == [] <==> b == [];
    if a != [] && b != [] {
      assert a[0].start == b[0].start;
      assert a[0].end == b[0].end by {
        var e := if a[0].end < b[0].end then a[0].end + 1 else b[0].end + 1;
        assert e in Gnos(a) <==> e in Gnos(b);
      }
      assert a[0] == b[0];
      CanonicalUnique(a[1..], b[1..]);
      assert a == [a[0]] + a[1..] && b == [b[0]] + b[1..];
    }
  }

  lemma Pieces(p: seq<Interval>, m: seq<Interval>, q: seq<Interval>)
    ensures Gnos(p + m + q) == Gnos(p) + Gnos(m) + Gnos(q)
    ensures Count(p + m + q) == Count(p) + Count(m) + Count(q)
  {
    Concat(p + m, q);
    Concat(p, m);
  }

  lemma CanonicalPieces(p: seq<Interval>, m: seq<Interval>, q: seq<Interval>)
    requires Canonical(p) && Canonical(m) && Canonical(q) && m != []
    requires p != [] ==> p[|p| - 1].end + 1 < m[0].start
    requires q != [] ==> m[|m| - 1].end + 1 < q[0].start
    ensures Canonical(p + m + q)
  {
    CanonicalConcat(p, m);
    CanonicalConcat(p + m, q);
  }

  // [start, end] touches nothing: it becomes an interval of its own between p and q.
  lemma InsertSpec(p: seq<Interval>, q: seq<Interval>, x: Interval)
    requires Canonical(p) && Canonical(q) && Canonical([x])
    requires p != [] ==> p[|p| - 1].end + 1 < x.start
    requires q != [] ==> x.end + 1 < q[0].start
    ensures Canonical(p + [x] + q)
    ensures Gnos(p + [x] + q) == Gnos(p + q) + Range(x.start, x.end)
    ensures Count(p + [x] + q) == Count(p + q) + (x.end - x.start + 1)
  {
    CanonicalPieces(p, [x], q);
    Pieces(p, [x], q);
    Concat(p, q);
    Single(x);
    Regroup(Gnos(p), {}, Gnos(q), Range(x.start, x.end));
  }

  // The intervals of m, and no others, overlap or touch [start, end]: x takes their place.
  lemma JoinSpec(p: seq<Interval>, m: seq<Interval>, q: seq<Interval>, start: int, end: int, x: Interval)
    requires Canonical(p + m + q) && m != [] && ValidRange(start, end) && end < GNO_MAX
    requires p != [] ==> p[|p| - 1].end + 1 < start
    requires q != [] ==> end + 1 < q[0].start
    requires start <= m[0].end + 1 && m[|m| - 1].start <= end + 1
    requires x.start == (if start < m[0].start then start else m[0].start)
    requires x.end == (if end < m[|m| - 1].end then m[|m| - 1].end else end)
    ensures Canonical(p + [x] + q)
    ensures Gnos(p + [x] + q) == Gnos(p + m + q) + Range(start, end)
    ensures Count(p + [x] + q) == Count(p + m + q) - Count(m) + (x.end - x.start + 1)
  {
    Subsequence(p, m, q);
    CanonicalPieces(p, [x], q);
    Pieces(p, [x], q);
    Pieces(p, m, q);
    Single(x);
    JoinedRange(m, start, end, x);
    Regroup(Gnos(p), Gnos(m), Gnos(q), Range(start, end));
  }

  lemma Regroup(a: set<int>, b: set<int>, c: set<int>, d: set<int>)
    ensures a + (b + d) + c == a + b + c + d
  {
  }

  lemma Subsequence(p: seq<Interval>, m: seq<Interval>, q: seq<Interval>)
    requires Canonical(p + m + q) && m != []
    ensures Canonical(p) && Canonical(m) && Canonical(q)
    ensures p != [] ==> p[|p| - 1].end + 1 < m[0].start
    ensures q != [] ==> m[|m| - 1].end + 1 < q[0].start
  {
    CanonicalSplit(p + m, q);
    CanonicalSplit(p, m);
  }

  lemma JoinedRange(m: seq<Interval>, start: int, end: int, x: Interval)
    requires Canonical(m) && m != [] && ValidRange(start, end)
    requires start <= m[0].end + 1 && m[|m| - 1].start <= end + 1
    requires x.start == (if start < m[0].start then start else m[0].start)
    requires x.end == (if end < m[|m| - 1].end then m[|m| - 1].end else end)
    ensures Gnos(m) + Range(start, end) == Range(x.start, x.end)
  {
    Bounds(m);
    forall g | g in Range(x.start, x.end) ensures g in Gnos(m) + Range(start, end) {
      if g < start { Covers(m, 0, g); }
      if end < g { Covers(m, |m| - 1, g); }
    }
  }

  // [start, end] is strictly inside y: it splits that interval in two.
  lemma SplitSpec(p: seq<Interval>, y: Interval, q: seq<Interval>, start: int, end: int)
    requires Canonical(p + [y] + q) && ValidRange(start, end)
    requires y.start < start && end < y.end
    ensures var two := [Interval(y.start, start - 1), Interval(end + 1, y.end)];
      && Canonical(p + two + q)
      && Gnos(p + two + q) == Gnos(p + [y] + q) - Range(start, end)
      && Count(p + two + q) == Count(p + [y] + q) - (end - start + 1)
  {
    var two := [Interval(y.start, start - 1), Interval(end + 1, y.end)];
    Subsequence(p, [y], q);
    assert [y][0] == y;
    Halves(y, start, end);
    CanonicalPieces(p, two, q);
    Outside(p, q, start, end);
    Pieces(p, [y], q);
    Pieces(p, two, q);
    Single(y);
    Cutout(Gnos(p), Gnos([y]), Gnos(q), Range(start, end));
  }

  lemma Halves(y: Interval, start: int, end: int)
    requires ValidRange(start, end) && y.end < GNO_MAX
    requires GNO_INITIAL <= y.start < start && end < y.end
    ensures var two := [Interval(y.start, start - 1), Interval(end + 1, y.end)];
      && Canonical(two)
      && Gnos(two) == Range(y.start, y.end) - Range(start, end)
      && Count(two) == y.end - y.start + 1 - (end - start + 1)
  {
    var l, r := Interval(y.start, start - 1), Interval(end + 1, y.end);
    assert [l, r] == [l] + [r];
    CanonicalConcat([l], [r]);
    Concat([l], [r]);
    Single(l);
    Single(r);
  }

  lemma Cutout(a: set<int>, b: set<int>, c: set<int>, d: set<int>)
    requires a !! d && c !! d
    ensures a + (b - d) + c == a + b + c - d
  {
  }

  lemma Outside(p: seq<Interval>, q: seq<Interval>, start: int, end: int)
    requires Canonical(p) && Canonical(q)
    requires p != [] ==> p[|p| - 1].end < start
    requires q != [] ==> end < q[0].start
    ensures Gnos(p) !! Range(start, end) && Gnos(q) !! Range(start, end)
  {
    if p != [] { Bounds(p); }
    if q != [] { Bounds(q); }
  }

  // What is left of an interval below a range, and above one.
  function Below(y: Interval, start: int): (r: Interval) {
    Interval(y.start, if y.end < start - 1 then y.end else start - 1)
  }

  function Above(z: Interval, end: int): (r: Interval) {
    Interval(if z.start < end + 1 then end + 1 else z.start, z.end)
  }

  lemma BelowRange(y: Interval, start: int, end: int)
    requires y.end <= end
    ensures Range(y.start, Below(y, start).end) == Range(y.start, y.end) - Range(start, end)
  {
  }

  lemma AboveRange(z: Interval, start: int, end: int)
    requires start <= z.start
    ensures Range(Above(z, end).start, z.end) == Range(z.start, z.end) - Range(start, end)
  {
  }

  function TrimEnd(p: seq<Interval>, start: int): seq<Interval> {
    if p == [] then p else p[..|p| - 1] + [Below(p[|p| - 1], start)]
  }

  function TrimStart(q: seq<Interval>, end: int): seq<Interval> {
    if q == [] then q else [Above(q[0], end)] + q[1..]
  }

  lemma AtLast(p: seq<Interval>, y: Interval)
    requires p != [] && p[|p| - 1] == y
    ensures p == p[..|p| - 1] + [y] + []
  {
  }

  lemma AtFirst(q: seq<Interval>, z: Interval)
    requires q != [] && q[0] == z
    ensures q == [] + [z] + q[1..]
  {
  }

  lemma TrimEndSpec(p: seq<Interval>, start: int, end: int)
    requires Canonical(p) && ValidRange(start, end)
    requires p != [] ==> p[|p| - 1].start < start && p[|p| - 1].end <= end
    ensures Canonical(TrimEnd(p, start))
    ensures Gnos(TrimEnd(p, start)) == Gnos(p) - Range(start, end)
  {
    if p != [] {
      var b, y := p[..|p| - 1], p[|p| - 1];
      AtLast(p, y);
      AtLast(TrimEnd(p, start), Below(y, start));
      BelowRange(y, start, end);
      TrimOne(b, y, Below(y, start), [], start, end);
    }
  }

  lemma TrimStartSpec(q: seq<Interval>, start: int, end: int)
    requires Canonical(q) && ValidRange(start, end)
    requires q != [] ==> start <= q[0].start && end < q[0].end
    ensures Canonical(TrimStart(q, end))
    ensures Gnos(TrimStart(q, end)) == Gnos(q) - Range(start, end)
  {
    if q != [] {
      var z, b := q[0], q[1..];
      AtFirst(q, z);
      AtFirst(TrimStart(q, end), Above(z, end));
      AboveRange(z, start, end);
      TrimOne([], z, Above(z, end), b, start, end);
    }
  }

  // A range that reaches into y from one side only.
  lemma TrimOne(p: seq<Interval>, y: Interval, z: Interval, q: seq<Interval>, start: int, end: int)
    requires Canonical(p + [y] + q) && ValidRange(start, end)
    requires ValidRange(z.start, z.end) && y.start <= z.start && z.end <= y.end
    requires Range(z.start, z.end) == Range(y.start, y.end) - Range(start, end)
    requires p != [] ==> y.start < start
    requires q != [] ==> end < y.end
    ensures Canonical(p + [z] + q)
    ensures Gnos(p + [z] + q) == Gnos(p + [y] + q) - Range(start, end)
  {
    Subsequence(p, [y], q);
    assert [y][0] == y;
    CanonicalPieces(p, [z], q);
    Outside(p, q, start, end);
    Pieces(p, [y], q);
    Pieces(p, [z], q);
    Single(y);
    Single(z);
    Cutout(Gnos(p), Gnos([y]), Gnos(q), Range(start, end));
  }

  // The intervals of m lie inside [start, end]; at most one neighbour on each side is cut short.
  lemma RemoveSpec(p: seq<Interval>, m: seq<Interval>, q: seq<Interval>, start: int, end: int)
    requires Canonical(p) && Canonical(q) && Canonical(p + m + q) && ValidRange(start, end)
    requires p != [] ==> p[|p| - 1].start < start && p[|p| - 1].end <= end
    requires q != [] ==> start <= q[0].start && end < q[0].end
    requires forall i :: 0 <= i < |m| ==> start <= m[i].start && m[i].end <= end
    ensures Canonical(TrimEnd(p, start) + TrimStart(q, end))
    ensures Gnos(TrimEnd(p, start) + TrimStart(q, end)) == Gnos(p + m + q) - Range(start, end)
    ensures Count(TrimEnd(p, start) + TrimStart(q, end)) ==
      Count(p + m + q) - (Count(p) - Count(TrimEnd(p, start))) - Count(m) - (Count(q) - Count(TrimStart(q, end)))
  {
    TrimEndSpec(p, start, end);
    TrimStartSpec(q, start, end);
    CanonicalConcat(TrimEnd(p, start), TrimStart(q, end));
    Concat(TrimEnd(p, start), TrimStart(q, end));
    Pieces(p, m, q);
    Within(m, start, end);
    Cuts(Gnos(p), Gnos(m), Gnos(q), Range(start, end));
  }

  lemma Cuts(a: set<int>, b: set<int>, c: set<int>, d: set<int>)
    requires b <= d
    ensures (a - d) + (c - d) == a + b + c - d
  {
  }
}
