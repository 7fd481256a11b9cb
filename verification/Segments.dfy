/** Segments of the sequence index: one block each, with the deltas in a growing array of 16-bit numbers. */
module Segments {
  import opened Intervals
  import opened SeqLogs
  import opened Tables
  import Seqs

  newtype Segoff = x: int | 0 <= x <= SEGOFF_MAX

  // 64 commands of the estimated size of 1024 bytes fill a segment.
  const NGNO_DEFAULT := SEGMENT_SIZE / 1024

  class Segment {
    var next: Segment?
    var prev: Segment?
    var uuid: Uuid
    var baseOffset: int
    var baseGno: int
    var tgno: nat
    var ngno: nat
    var deltas: array<Segoff>  // its length is the capacity

    // The segment holds block b.
    ghost predicate Is(b: Block)
      reads this`uuid, this`baseOffset, this`baseGno, this`tgno, this`ngno, this`deltas, deltas
    {
      && uuid == b.uuid && baseOffset == b.baseOffset && baseGno == b.baseGno && tgno == b.tgno
      && ngno == |b.deltas| <= deltas.Length && deltas.Length > 0
      && forall i :: 0 <= i < |b.deltas| ==> deltas[i] as int == b.deltas[i]
    }

    constructor ()
      ensures next == null && prev == null && fresh(deltas) && deltas.Length == NGNO_DEFAULT
    {
      next, prev := null, null;
      uuid, baseOffset, baseGno := "", 0, 0;
      tgno, ngno := 0, 0;
      deltas := new Segoff[NGNO_DEFAULT];
    }

    method Reset(uuid: Uuid, baseGno: int, baseOffset: int)
      requires deltas.Length > 0
      modifies this`uuid, this`baseOffset, this`baseGno, this`tgno, this`ngno
      ensures Is(Block(uuid, baseGno, baseOffset, [], 0))
    {
      this.uuid, this.baseOffset, this.baseGno := uuid, baseOffset, baseGno;
      tgno, ngno := 0, 0;
    }

    // One more gno; a full array is replaced by one twice as long.
    method Append(offset: int, ghost b: Block)
      requires Is(b) && 0 <= offset - b.baseOffset <= SEGOFF_MAX
      modifies this`ngno, this`deltas, deltas
      ensures Is(Extended(b, offset))
      ensures deltas == old(deltas) || fresh(deltas)
      ensures deltas.Length == (if |b.deltas| == old(deltas.Length) then 2 * old(deltas.Length) else old(deltas.Length))
    {
      if ngno == deltas.Length {
        Grow(b);
      }
      deltas[ngno] := (offset - baseOffset) as Segoff;
      ngno := ngno + 1;
    }

    method Grow(ghost b: Block)
      requires Is(b)
      modifies this`deltas
      ensures Is(b) && fresh(deltas) && deltas.Length == 2 * old(deltas.Length)
    {
      var larger := new Segoff[2 * deltas.Length];
      var i := 0;
      while i < ngno
        invariant i <= ngno && Is(b)
        invariant forall j :: 0 <= j < i ==> larger[j] == deltas[j]
        modifies larger
      {
        larger[i] := deltas[i];
        i := i + 1;
      }
      deltas := larger;
    }

    // Binary search for the first gno logged at "until" or later; ngno if there is none.
    method Search(until: int, ghost b: Block) returns (l: nat)
      requires Is(b) && Good(b)
      ensures b.tgno <= l <= |b.deltas|
      ensures l < |b.deltas| ==> b.baseOffset + b.deltas[l] >= until
      ensures l > b.tgno ==> b.baseOffset + b.deltas[l - 1] < until
    {
      var r;
      l, r := tgno, ngno;
      while l < r
        invariant b.tgno <= l <= r <= |b.deltas|
        invariant r < |b.deltas| ==> b.baseOffset + b.deltas[r] >= until
        invariant l > b.tgno ==> b.baseOffset + b.deltas[l - 1] < until
      {
        var m := l + (r - l) / 2;
        var offset := baseOffset + deltas[m] as int;
        if offset < until {
          l := m + 1;
        } else {
          r := m;
        }
      }
    }
  }

  // ----- Several segments -----------------------------------------------------------------------------

  ghost predicate Inside(a: seq<Segment>, m: set<Segment>) {
    forall i :: 0 <= i < |a| ==> a[i] in m
  }

  // Two segments share neither identity nor array.
  ghost predicate Apart(a: seq<Segment>, i: nat, j: nat)
    requires i < |a| && j < |a|
    reads a`deltas
  {
    a[i] != a[j] && a[i].deltas != a[j].deltas
  }

  ghost predicate AllApart(a: seq<Segment>, m: set<Segment>)
    reads m`deltas
  {
    Inside(a, m) && forall i, j :: 0 <= i < j < |a| ==> Apart(a, i, j)
  }

  // The segments s hold the blocks bs; "room" are the lengths of their arrays.
  ghost predicate Live(s: seq<Segment>, bs: seq<Block>, room: seq<nat>, m: set<Segment>, arrays: set<object>)
    reads s`uuid, s`baseOffset, s`baseGno, s`tgno, s`ngno, s`deltas, arrays
  {
    && Inside(s, m) && |s| == |bs| == |room|
    && forall i :: 0 <= i < |s| ==> s[i].deltas in arrays && s[i].Is(bs[i]) && s[i].deltas.Length == room[i]
  }

  // The free segments f, and the lengths of their arrays.
  ghost predicate Spare(f: seq<Segment>, room: seq<nat>, m: set<Segment>, arrays: set<object>)
    reads m`deltas
  {
    && Inside(f, m) && |f| == |room|
    && forall i :: 0 <= i < |f| ==> f[i].deltas in arrays && f[i].deltas.Length == room[i] > 0
  }

  ghost predicate Link(s: seq<Segment>, i: nat)
    requires i < |s|
    reads s`next, s`prev
  {
    && s[i].next == (if i + 1 < |s| then s[i + 1] else null)
    && s[i].prev == (if i > 0 then s[i - 1] else null)
  }

  // A doubly linked list.
  ghost predicate Chain(s: seq<Segment>, first: Segment?, last: Segment?, m: set<Segment>)
    reads m`next, m`prev
  {
    && Inside(s, m)
    && first == (if s == [] then null else s[0])
    && last == (if s == [] then null else s[|s| - 1])
    && forall i :: 0 <= i < |s| ==> Link(s, i)
  }

  ghost predicate FreeLink(s: seq<Segment>, i: nat)
    requires i < |s|
    reads s`next, s`prev
  {
    s[i].prev == null && s[i].next == (if i + 1 < |s| then s[i + 1] else null)
  }

  // A singly linked list.
  ghost predicate FreeChain(s: seq<Segment>, first: Segment?, m: set<Segment>)
    reads m`next, m`prev
  {
    && Inside(s, m)
    && first == (if s == [] then null else s[0])
    && forall i :: 0 <= i < |s| ==> FreeLink(s, i)
  }

  // A segment outside the lists a.
  ghost predicate Detached(x: Segment, a: seq<Segment>, m: set<Segment>, arrays: set<object>)
    reads m`deltas, x`deltas
  {
    && Inside(a, m) && x in m && x.deltas in arrays && x.deltas.Length > 0
    && forall i :: 0 <= i < |a| ==> a[i] != x && a[i].deltas != x.deltas
  }

  lemma DetachFirst(s: seq<Segment>, f: seq<Segment>, m: set<Segment>, arrays: set<object>)
    requires s != [] && AllApart(s + f, m) && s[0].deltas in arrays && s[0].deltas.Length > 0
    ensures Detached(s[0], s[1..] + f, m, arrays) && AllApart(s[1..] + f, m)
  {
    var a, b := s + f, s[1..] + f;
    forall i | 0 <= i < |b| ensures b[i] in m && b[i] != s[0] && b[i].deltas != s[0].deltas {
      assert b[i] == a[i + 1] && Apart(a, 0, i + 1);
    }
    forall i, j | 0 <= i < j < |b| ensures Apart(b, i, j) {
      assert Apart(a, i + 1, j + 1);
    }
    assert a[0] in m;
  }

  lemma DetachFree(s: seq<Segment>, f: seq<Segment>, m: set<Segment>, arrays: set<object>)
    requires f != [] && AllApart(s + f, m) && f[0].deltas in arrays && f[0].deltas.Length > 0
    ensures Detached(f[0], s + f[1..], m, arrays) && AllApart(s + f[1..], m)
  {
    var a, b, n := s + f, s + f[1..], |s|;
    assert a[n] == f[0];
    forall i | 0 <= i < |b| ensures b[i] in m && b[i] != f[0] && b[i].deltas != f[0].deltas {
      assert b[i] == a[if i < n then i else i + 1];
      assert Apart(a, if i < n then i else n, if i < n then n else i + 1);
    }
    forall i, j | 0 <= i < j < |b| ensures Apart(b, i, j) {
      assert Apart(a, if i < n then i else i + 1, if j < n then j else j + 1);
    }
  }

  lemma Reattach(x: Segment, s: seq<Segment>, f: seq<Segment>, m: set<Segment>, arrays: set<object>)
    requires AllApart(s + f, m) && Detached(x, s + f, m, arrays)
    ensures AllApart((s + [x]) + f, m) && AllApart(s + ([x] + f), m)
  {
    var a, b, n := s + f, (s + [x]) + f, |s|;
    assert s + ([x] + f) == b;
    forall i | 0 <= i < |b| ensures b[i] in m {
      assert b[i] == if i < n then a[i] else if i == n then x else a[i - 1];
    }
    forall i, j | 0 <= i < j < |b| ensures Apart(b, i, j) {
      assert b[i] == if i < n then a[i] else if i == n then x else a[i - 1];
      assert b[j] == if j < n then a[j] else if j == n then x else a[j - 1];
      assert i != n && j != n ==> Apart(a, if i < n then i else i - 1, if j < n then j else j - 1);
    }
  }

  lemma LiveAppend(s: seq<Segment>, bs: seq<Block>, room: seq<nat>, m: set<Segment>, arrays: set<object>, x: Segment, b: Block)
    requires Live(s, bs, room, m, arrays) && x in m && x.deltas in arrays && x.Is(b)
    ensures Live(s + [x], bs + [b], room + [x.deltas.Length], m, arrays)
  {
  }

  lemma LiveRest(s: seq<Segment>, bs: seq<Block>, room: seq<nat>, m: set<Segment>, arrays: set<object>)
    requires Live(s, bs, room, m, arrays) && s != []
    ensures s[0] in m && s[0].deltas in arrays && s[0].Is(bs[0]) && s[0].deltas.Length == room[0] > 0
    ensures Live(s[1..], bs[1..], room[1..], m, arrays)
  {
  }

  lemma SpareRest(f: seq<Segment>, room: seq<nat>, m: set<Segment>, arrays: set<object>)
    requires Spare(f, room, m, arrays) && f != []
    ensures f[0] in m && f[0].deltas in arrays && f[0].deltas.Length == room[0] > 0
    ensures Spare(f[1..], room[1..], m, arrays)
  {
  }

  lemma SpareCons(f: seq<Segment>, room: seq<nat>, m: set<Segment>, arrays: set<object>, x: Segment)
    requires Spare(f, room, m, arrays) && x in m && x.deltas in arrays && x.deltas.Length > 0
    ensures Spare([x] + f, [x.deltas.Length] + room, m, arrays)
  {
  }

  // A new segment joins the members.
  lemma Wider(a: seq<Segment>, s: seq<Segment>, bs: seq<Block>, room: seq<nat>, f: seq<Segment>, spare: seq<nat>,
              m: set<Segment>, arrays: set<object>, x: Segment)
    requires AllApart(a, m) && Live(s, bs, room, m, arrays) && Spare(f, spare, m, arrays)
    requires x !in m && x.deltas !in arrays && x.deltas.Length > 0
    requires forall i :: 0 <= i < |a| ==> a[i].deltas in arrays
    ensures AllApart(a, m + {x}) && Live(s, bs, room, m + {x}, arrays + {x.deltas}) && Spare(f, spare, m + {x}, arrays + {x.deltas})
    ensures Detached(x, a, m + {x}, arrays + {x.deltas})
  {
    assert Inside(a, m) && Inside(a, m + {x});
    forall i, j | 0 <= i < j < |a| ensures Apart(a, i, j) {
    }
  }

  lemma WiderLists(s: seq<Segment>, first: Segment?, last: Segment?, f: seq<Segment>, free: Segment?, m: set<Segment>, x: Segment)
    requires Lists(s, first, last, f, free, m)
    ensures Lists(s, first, last, f, free, m + {x})
  {
  }

  // Segment number k apart from all others.
  lemma ApartFrom(a: seq<Segment>, m: set<Segment>, k: nat)
    requires AllApart(a, m) && k < |a|
    ensures forall i :: 0 <= i < |a| && i != k ==> a[i] != a[k] && a[i].deltas != a[k].deltas
  {
    forall i | 0 <= i < |a| && i != k ensures a[i] != a[k] && a[i].deltas != a[k].deltas {
      assert Apart(a, if i < k then i else k, if i < k then k else i);
    }
  }

  lemma ArraysOf(a: seq<Segment>) returns (ds: seq<array<Segoff>>)
    ensures |ds| == |a| && forall i :: 0 <= i < |a| ==> ds[i] == a[i].deltas
  {
    ds := [];
    while |ds| < |a|
      invariant |ds| <= |a| && forall i :: 0 <= i < |ds| ==> ds[i] == a[i].deltas
    {
      ds := ds + [a[|ds|].deltas];
    }
  }

  // Segment number k of s + f now holds b, perhaps in a new array; the arrays were ds.
  lemma Replaced(s: seq<Segment>, bs: seq<Block>, room: seq<nat>, f: seq<Segment>, spare: seq<nat>,
                 m: set<Segment>, arrays: set<object>, k: nat, b: Block, ds: seq<array<Segoff>>)
    requires Inside(s + f, m) && k < |s| == |bs| == |room| && |f| == |spare| && |ds| == |s + f|
    requires forall i, j :: 0 <= i < j < |ds| ==> Unequal(s + f, ds, i, j)
    requires forall i :: 0 <= i < |ds| ==> ds[i] in arrays
    requires s[k].Is(b) && (s[k].deltas == ds[k] || s[k].deltas !in arrays)
    requires forall i :: 0 <= i < |s| && i != k ==> s[i].Is(bs[i]) && s[i].deltas == ds[i] && ds[i].Length == room[i]
    requires forall i :: 0 <= i < |f| ==> f[i].deltas == ds[|s| + i] && f[i].deltas.Length == spare[i] > 0
    ensures AllApart(s + f, m) && Spare(f, spare, m, arrays + {s[k].deltas})
    ensures Live(s, bs[k := b], room[k := s[k].deltas.Length], m, arrays + {s[k].deltas})
  {
    var a := s + f;
    forall i, j | 0 <= i < j < |a| ensures Apart(a, i, j) {
      assert Unequal(a, ds, i, j);
      assert a[i] == (if i < |s| then s[i] else f[i - |s|]) && a[j] == (if j < |s| then s[j] else f[j - |s|]);
    }
    assert forall i :: 0 <= i < |s| ==> a[i] == s[i];
    assert forall i :: 0 <= i < |f| ==> a[|s| + i] == f[i];
  }

  ghost predicate Unequal(a: seq<Segment>, ds: seq<array<Segoff>>, i: nat, j: nat)
    requires i < |a| && j < |a| && |ds| == |a|
  {
    a[i] != a[j] && ds[i] != ds[j]
  }

  lemma {:induction false} SumUpdate(room: seq<nat>, k: nat, n: nat)
    requires k < |room|
    ensures Sum(room[k := n]) == Sum(room) - room[k] + n
  {
    if k < |room| - 1 {
      SumUpdate(room[..|room| - 1], k, n);
      assert room[k := n][..|room| - 1] == room[..|room| - 1][k := n];
    } else {
      assert room[k := n][..k] == room[..k];
    }
  }

  // ----- Relinking --------------------------------------------------------------------------------------

  // Both lists, threaded through the same segments.
  ghost predicate Lists(s: seq<Segment>, first: Segment?, last: Segment?, f: seq<Segment>, free: Segment?, m: set<Segment>)
    reads m`next, m`prev
  {
    Chain(s, first, last, m) && FreeChain(f, free, m)
  }

  ghost function Just(x: Segment?): set<Segment> {
    if x == null then {} else {x}
  }

  method LinkLast(x: Segment, first: Segment?, last: Segment?, ghost s: seq<Segment>, ghost t: seq<Segment>,
                  ghost f: seq<Segment>, ghost free: Segment?, ghost m: set<Segment>)
    requires Lists(s, first, last, f, free, m) && AllApart(s + f, m) && t == s + [x]
    requires x in m && x.next == null && forall i :: 0 <= i < |s + f| ==> (s + f)[i] != x
    modifies x`prev, Just(last)`next
    ensures Lists(t, if first == null then x else first, x, f, free, m)
  {
    ghost var a := s + f;
    x.prev := last;
    if last != null {
      last.next := x;
    }
    assert s != [] ==> a[|s| - 1] == s[|s| - 1] && x != last;
    forall i | 0 <= i < |t| ensures Link(t, i) {
      assert i < |s| ==> a[i] == s[i] == t[i] && old(Link(s, i));
      assert i < |s| - 1 ==> Apart(a, i, |s| - 1) && t[i + 1] == s[i + 1];
      assert i > 0 ==> t[i - 1] == s[i - 1];
    }
    forall i | 0 <= i < |f| ensures FreeLink(f, i) {
      assert a[|s| + i] == f[i] && old(FreeLink(f, i));
      assert s != [] ==> Apart(a, |s| - 1, |s| + i) && a[|s| - 1] == s[|s| - 1];
    }
  }

  method UnlinkFirst(x: Segment, first: Segment?, last: Segment?, ghost s: seq<Segment>,
                     ghost f: seq<Segment>, ghost free: Segment?, ghost m: set<Segment>)
    requires Lists(s, first, last, f, free, m) && AllApart(s + f, m) && s != [] && x == s[0]
    modifies Just(x.next)`prev
    ensures x.next == old(x.next)
    ensures Lists(s[1..], x.next, if x.next == null then null else last, f, free, m)
  {
    ghost var a, t := s + f, s[1..];
    assert Link(s, 0);
    if x.next != null {
      x.next.prev := null;
    }
    forall i | 0 <= i < |t| ensures Link(t, i) {
      assert old(Link(s, i + 1)) && a[i + 1] == s[i + 1];
      assert i > 0 ==> Apart(a, 1, i + 1) && a[1] == s[1];
    }
    forall i | 0 <= i < |f| ensures FreeLink(f, i) {
      assert old(FreeLink(f, i)) && a[|s| + i] == f[i];
      assert |s| > 1 ==> Apart(a, 1, |s| + i) && a[1] == s[1];
    }
    assert t != [] ==> t[|t| - 1] == s[|s| - 1];
  }

  method UnlinkFree(x: Segment, ghost s: seq<Segment>, ghost first: Segment?, ghost last: Segment?,
                    ghost f: seq<Segment>, ghost free: Segment?, ghost m: set<Segment>) returns (rest: Segment?)
    requires Lists(s, first, last, f, free, m) && AllApart(s + f, m) && f != [] && x == f[0]
    modifies x`next
    ensures x.next == null && x.prev == null && Lists(s, first, last, f[1..], rest, m)
  {
    ghost var a, g := s + f, f[1..];
    assert FreeLink(f, 0) && a[|s|] == x;
    rest := x.next;
    x.next := null;
    forall i | 0 <= i < |s| ensures Link(s, i) {
      assert old(Link(s, i)) && Apart(a, i, |s|) && a[i] == s[i];
    }
    forall i | 0 <= i < |g| ensures FreeLink(g, i) {
      assert old(FreeLink(f, i + 1)) && Apart(a, |s|, |s| + i + 1) && a[|s| + i + 1] == g[i];
    }
  }

  method LinkFree(x: Segment, ghost s: seq<Segment>, ghost first: Segment?, ghost last: Segment?,
                  ghost f: seq<Segment>, free: Segment?, ghost m: set<Segment>)
    requires Lists(s, first, last, f, free, m)
    requires x in m && forall i :: 0 <= i < |s + f| ==> (s + f)[i] != x
    modifies x`next, x`prev
    ensures Lists(s, first, last, [x] + f, x, m)
  {
    ghost var a, g := s + f, [x] + f;
    x.next, x.prev := free, null;
    forall i | 0 <= i < |s| ensures Link(s, i) {
      assert old(Link(s, i)) && a[i] == s[i];
    }
    forall i | 0 <= i < |g| ensures FreeLink(g, i) {
      assert i > 0 ==> old(FreeLink(f, i - 1)) && a[|s| + i - 1] == g[i];
    }
  }

  ghost function Sum(room: seq<nat>): nat {
    if room == [] then 0 else Sum(room[..|room| - 1]) + room[|room| - 1]
  }

  lemma SumAppend(room: seq<nat>, n: nat)
    ensures Sum(room + [n]) == Sum(room) + n
  {
    assert (room + [n])[..|room|] == room;
  }

  lemma SumCons(n: nat, room: seq<nat>)
    ensures Sum([n] + room) == n + Sum(room)
  {
    SumFirst([n] + room);
    assert ([n] + room)[1..] == room;
  }

  lemma {:induction false} SumFirst(room: seq<nat>)
    requires room != []
    ensures Sum(room) == room[0] + Sum(room[1..])
  {
    if |room| > 1 {
      SumFirst(room[..|room| - 1]);
      assert room[..|room| - 1][1..] == room[1..][..|room| - 2];
    } else {
      assert room[..0] == [] && room[1..] == [];
    }
  }
}
