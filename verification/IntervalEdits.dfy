/** What insertion, joining, splitting and trimming do to a canonical sequence of intervals. */
module IntervalEdits {
  import opened Intervals
  import Seqs

  function Inserted(s: seq<Interval>, k: nat, x: Interval): seq<Interval>
    requires k <= |s|
  {
    s[..k] + [x] + s[k..]
  }

  lemma InsertedSpec(s: seq<Interval>, k: nat, x: Interval)
    requires Canonical(s) && ValidRange(x.start, x.end) && x.end < GNO_MAX && k <= |s|
    requires k > 0 ==> s[k - 1].end + 1 < x.start
    requires k < |s| ==> x.end + 1 < s[k].start
    ensures Canonical(Inserted(s, k, x))
    ensures Gnos(Inserted(s, k, x)) == Gnos(s) + Range(x.start, x.end)
    ensures Count(Inserted(s, k, x)) == Count(s) + (x.end - x.start + 1)
  {
    hide Gnos, Count;
    Parts(s, k);
    InsertSpec(s[..k], s[k..], x);
  }

  // s[a..b] replaced by one interval.
  function Joined(s: seq<Interval>, a: nat, b: nat, x: Interval): seq<Interval>
    requires a <= b <= |s|
  {
    s[..a] + [x] + s[b..]
  }

  // The union of [start, end] with the intervals s[a..b] that it overlaps or touches.
  function Cover(s: seq<Interval>, a: nat, b: nat, start: int, end: int): Interval
    requires a < b <= |s|
  {
    Interval(if start < s[a].start then start else s[a].start, if end < s[b - 1].end then s[b - 1].end else end)
  }

  lemma JoinedSpec(s: seq<Interval>, a: nat, b: nat, start: int, end: int, x: Interval)
    requires Canonical(s) && a < b <= |s| && ValidRange(start, end) && end < GNO_MAX
    requires a > 0 ==> s[a - 1].end + 1 < start
    requires b < |s| ==> end + 1 < s[b].start
    requires start <= s[a].end + 1 && s[b - 1].start <= end + 1
    requires x == Cover(s, a, b, start, end)
    ensures Canonical(Joined(s, a, b, x))
    ensures Gnos(Joined(s, a, b, x)) == Gnos(s) + Range(start, end)
    ensures Count(Joined(s, a, b, x)) == Count(s) - Count(s[a..b]) + (x.end - x.start + 1)
  {
    hide Gnos, Count, Canonical;
    Seqs.Thirds(s, a, b);
    JoinSpec(s[..a], s[a..b], s[b..], start, end, x);
  }

  lemma JoinedOne(s: seq<Interval>, k: nat, x: Interval)
    requires k < |s|
    ensures Joined(s, k, k + 1, x) == s[k := x]
    ensures s[k..k + 1] == [s[k]] && Count(s[k..k + 1]) == s[k].end - s[k].start + 1
  {
    hide Count;
    Seqs.One(s, k);
    Seqs.Update(s, k, x);
    Single(s[k]);
  }

  function SplitAt(s: seq<Interval>, a: nat, start: int, end: int): seq<Interval>
    requires 1 <= a <= |s|
  {
    Inserted(s[a - 1 := Interval(s[a - 1].start, start - 1)], a, Interval(end + 1, s[a - 1].end))
  }

  lemma SplitAtSpec(s: seq<Interval>, a: nat, start: int, end: int)
    requires Canonical(s) && 1 <= a <= |s| && ValidRange(start, end)
    requires s[a - 1].start < start && end < s[a - 1].end
    ensures Canonical(SplitAt(s, a, start, end))
    ensures Gnos(SplitAt(s, a, start, end)) == Gnos(s) - Range(start, end)
    ensures Count(SplitAt(s, a, start, end)) == Count(s) - (end - start + 1)
  {
    hide Gnos, Count, Canonical;
    var y := s[a - 1];
    SplitAtShape(s, a, Interval(y.start, start - 1), Interval(end + 1, y.end));
    SplitSpec(s[..a - 1], y, s[a..], start, end);
  }

  lemma SplitAtShape(s: seq<Interval>, a: nat, l: Interval, r: Interval)
    requires 1 <= a <= |s|
    ensures s == s[..a - 1] + [s[a - 1]] + s[a..]
    ensures Inserted(s[a - 1 := l], a, r) == s[..a - 1] + [l, r] + s[a..]
  {
  }

  function TrimAt(s: seq<Interval>, a: nat, c: nat, start: int, end: int): seq<Interval>
    requires a <= c <= |s|
  {
    TrimEnd(s[..a], start) + TrimStart(s[c..], end)
  }

  // How many gnos the cut takes from the interval on the left, from the one on the right, and in all.
  ghost function LeftCut(s: seq<Interval>, a: nat, start: int): int
    requires a <= |s|
  {
    Count(s[..a]) - Count(TrimEnd(s[..a], start))
  }

  ghost function RightCut(s: seq<Interval>, c: nat, end: int): int
    requires c <= |s|
  {
    Count(s[c..]) - Count(TrimStart(s[c..], end))
  }

  ghost function TrimmedCount(s: seq<Interval>, a: nat, c: nat, start: int, end: int): int
    requires a <= c <= |s|
  {
    LeftCut(s, a, start) + Count(s[a..c]) + RightCut(s, c, end)
  }

  lemma TrimmedSum(s: seq<Interval>, a: nat, c: nat, start: int, end: int)
    requires a <= c <= |s|
    ensures TrimmedCount(s, a, c, start, end) == (LeftCut(s, a, start) + RightCut(s, c, end)) + Count(s[a..c])
  {
  }

  lemma TrimAtSpec(s: seq<Interval>, a: nat, c: nat, start: int, end: int)
    requires Canonical(s) && a <= c <= |s| && ValidRange(start, end)
    requires forall i :: 0 <= i < |s| ==> (s[i].start < start <==> i < a)
    requires forall i :: 0 <= i < |s| ==> (s[i].end <= end <==> i < c)
    ensures Canonical(TrimAt(s, a, c, start, end))
    ensures Gnos(TrimAt(s, a, c, start, end)) == Gnos(s) - Range(start, end)
    ensures Count(TrimAt(s, a, c, start, end)) == Count(s) - TrimmedCount(s, a, c, start, end)
  {
    hide Gnos, Count;
    Seqs.Thirds(s, a, c);
    Parts(s, a);
    Parts(s, c);
    RemoveSpec(s[..a], s[a..c], s[c..], start, end);
  }

  lemma TrimEndCount(p: seq<Interval>, start: int)
    ensures p == [] ==> Count(TrimEnd(p, start)) == Count(p)
    ensures p != [] ==> Count(p) - Count(TrimEnd(p, start)) == p[|p| - 1].end - Below(p[|p| - 1], start).end
  {
    hide Count, Gnos;
    if p != [] {
      var b, y := p[..|p| - 1], p[|p| - 1];
      Seqs.Last(p);
      Concat(b, [y]);
      Concat(b, [Below(y, start)]);
      Single(y);
      Single(Below(y, start));
    }
  }

  function EndTrimmed(s: seq<Interval>, a: nat, start: int): (r: seq<Interval>)
    requires a <= |s|
    ensures |r| == |s|
  {
    if a == 0 then s else s[a - 1 := Below(s[a - 1], start)]
  }

  function BothTrimmed(s: seq<Interval>, a: nat, c: nat, start: int, end: int): (r: seq<Interval>)
    requires a <= c <= |s|
    ensures |r| == |s|
  {
    var t := EndTrimmed(s, a, start);
    if c == |s| then t else t[c := Above(t[c], end)]
  }

  // The trimmed sequence without what is between the two ends.
  lemma TrimmedAt(s: seq<Interval>, a: nat, c: nat, start: int, end: int)
    requires a <= c <= |s|
    ensures var t := BothTrimmed(s, a, c, start, end);
            t[..a] + t[c..] == TrimAt(s, a, c, start, end) && t[a..c] == s[a..c]
  {
    var t := BothTrimmed(s, a, c, start, end);
    assert t[..a] == TrimEnd(s[..a], start);
    assert t[c..] == TrimStart(s[c..], end);
  }

  lemma NoRight(s: seq<Interval>, a: nat, start: int, end: int)
    requires a <= |s|
    ensures BothTrimmed(s, a, |s|, start, end) == EndTrimmed(s, a, start) && RightCut(s, |s|, end) == 0
  {
  }

  lemma LastOfSlice(s: seq<Interval>, a: nat, b: nat, x: Interval)
    requires a < b <= |s|
    ensures s[b - 1 := x][..a] + s[b - 1 := x][b - 1..] == Joined(s, a, b, x)
    ensures s[b - 1 := x][a..b - 1] == s[a..b - 1]
    ensures Count(s[a..b - 1]) == Count(s[a..b]) - (s[b - 1].end - s[b - 1].start + 1)
  {
    hide Count, Gnos;
    LastOfSliceShape(s, a, b, x);
    Concat(s[a..b - 1], [s[b - 1]]);
    Single(s[b - 1]);
  }

  lemma LastOfSliceShape(s: seq<Interval>, a: nat, b: nat, x: Interval)
    requires a < b <= |s|
    ensures s[b - 1 := x][..a] + s[b - 1 := x][b - 1..] == Joined(s, a, b, x)
    ensures s[b - 1 := x][a..b - 1] == s[a..b - 1] && s[a..b] == s[a..b - 1] + [s[b - 1]]
  {
    assert s[b - 1 := x][b - 1..] == [x] + s[b..];
  }

  lemma CountNext(t: seq<Interval>, i: nat)
    requires i < |t|
    ensures Count(t[..i + 1]) == Count(t[..i]) + (t[i].end - t[i].start + 1)
  {
    hide Count, Gnos;
    Seqs.One(t, i);
    Concat(t[..i], [t[i]]);
    Single(t[i]);
  }

  // How many intervals end, or start, below v.
  lemma EndsBelow(s: seq<Interval>, v: int) returns (k: nat)
    requires Canonical(s)
    ensures k <= |s| && forall i :: 0 <= i < |s| ==> (s[i].end < v <==> i < k)
  {
    k := 0;
    while k < |s| && s[k].end < v
      invariant k <= |s| && forall i :: 0 <= i < k ==> s[i].end < v
    {
      k := k + 1;
    }
    forall i | k <= i < |s| ensures s[i].end >= v {
      assert i > k ==> Gap(s, k, i);
    }
  }

  lemma StartsBelow(s: seq<Interval>, v: int) returns (k: nat)
    requires Canonical(s)
    ensures k <= |s| && forall i :: 0 <= i < |s| ==> (s[i].start < v <==> i < k)
  {
    k := 0;
    while k < |s| && s[k].start < v
      invariant k <= |s| && forall i :: 0 <= i < k ==> s[i].start < v
    {
      k := k + 1;
    }
    forall i | k <= i < |s| ensures s[i].start >= v {
      assert i > k ==> Gap(s, k, i);
    }
  }

  // Only the last interval that starts at or below g can hold g.
  lemma Lookup(s: seq<Interval>, k: nat, g: int)
    requires Canonical(s) && k <= |s|
    requires forall i :: 0 <= i < |s| ==> (s[i].start < g + 1 <==> i < k)
    ensures g in Gnos(s) <==> k > 0 && s[k - 1].start <= g <= s[k - 1].end
  {
    if g in Gnos(s) {
      var i := Find(s, g);
      assert i < k - 1 ==> Gap(s, i, k - 1);
    } else if k > 0 && g <= s[k - 1].end {
      Covers(s, k - 1, g);
    }
  }

  // n is the number after the greatest one in s; numbering starts at 1.
  ghost predicate IsNext(n: int, s: set<int>) {
    n >= GNO_INITIAL && (forall g :: g in s ==> g < n) && (n == GNO_INITIAL || n - 1 in s)
  }

  lemma NextIsUnique(m: int, n: int, s: set<int>)
    requires IsNext(m, s) && IsNext(n, s)
    ensures m == n
  {
  }

  ghost function After(s: seq<Interval>): int {
    if s == [] then GNO_INITIAL else s[|s| - 1].end + 1
  }

  lemma AfterIsNext(s: seq<Interval>)
    requires Canonical(s)
    ensures IsNext(After(s), Gnos(s))
    ensures forall g :: g in Gnos(s) ==> GNO_INITIAL <= g < GNO_MAX
  {
    if s != [] {
      Bounds(s);
      Covers(s, |s| - 1, s[|s| - 1].end);
    }
  }

  lemma GnosNext(t: seq<Interval>, i: nat)
    requires i < |t|
    ensures Gnos(t[..i + 1]) == Gnos(t[..i]) + Range(t[i].start, t[i].end)
  {
    hide Count, Gnos;
    Seqs.One(t, i);
    Concat(t[..i], [t[i]]);
    Single(t[i]);
  }
}
