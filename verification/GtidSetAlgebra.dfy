/** Union, difference, copy and comparison of GTID sets. */
module GtidSetAlgebra {
  import opened GtidSets
  import opened Intervals
  import opened Tables
  import opened UuidSets
  import Seqs

  // The two sets share no memory.
  ghost predicate Disjoint(a: GtidSet, b: GtidSet)
    reads a`repr, a`members, b`repr, b`members
  {
    && a != b && a !in b.repr && b !in a.repr && a.repr !! b.repr && a.members !! b.members
    && (forall u :: u in a.members ==> u !in b.repr)
    && (forall u :: u in b.members ==> u !in a.repr)
  }

  // cur is member number i of the list, or null after the last one.
  ghost predicate Cursor(g: GtidSet, cur: UuidSet?, i: nat)
    reads g`sets
  {
    i <= |g.sets| && cur == (if i < |g.sets| then g.sets[i] else null)
  }

  lemma AtCursor(g: GtidSet, cur: UuidSet?, i: nat)
    requires g.Listed() && Cursor(g, cur, i)
    ensures |g.entries| == |g.sets| && Unique(g.entries) && i <= |g.entries| && (cur == null <==> i == |g.entries|)
    ensures cur != null ==> cur.Valid() && cur.Row() == g.entries[i] && cur.uuid == g.entries[i].uuid && cur.Repr() <= g.repr
    ensures cur != null ==> Cursor(g, cur.next, i + 1) && cur in g.members
  {
    if cur != null {
      g.Others(i);
      g.NextIs(i);
    }
  }

  lemma AtFirst(g: GtidSet)
    requires g.Valid()
    ensures g.Listed() && Cursor(g, g.header, 0) && Unique(g.entries) && (g.header == null ==> |g.entries| == 0)
  {
    g.Pointers();
    g.First();
    g.Outside();
  }

  // Add src to dst; returns how many ids dst had not.
  method Merge(dst: GtidSet, src: GtidSet?) returns (added: int)
    requires dst.Valid() && (src != null ==> src.Valid() && Disjoint(dst, src))
    modifies dst`header, dst`tail, dst`sets, dst`entries, dst`members, dst`repr, dst.repr, dst.members`next
    ensures dst.Valid() && added == dst.Total() - old(dst.Total())
    ensures forall o :: o in dst.repr ==> o in old(dst.repr) || fresh(o)
    ensures forall u :: u in dst.members ==> u in old(dst.members) || fresh(u)
    ensures dst.Map() == if src == null then old(dst.Map()) else Union(old(dst.Map()), old(src.Map()))
  {
    if src == null { return 0; }
    added := MergeAll(dst, src);
  }

  method MergeAll(dst: GtidSet, src: GtidSet) returns (added: int)
    requires dst.Valid() && src.Valid() && Disjoint(dst, src)
    modifies dst`header, dst`tail, dst`sets, dst`entries, dst`members, dst`repr, dst.repr, dst.members`next
    ensures dst.Valid() && added == dst.Total() - old(dst.Total())
    ensures forall o :: o in dst.repr ==> o in old(dst.repr) || fresh(o)
    ensures forall u :: u in dst.members ==> u in old(dst.members) || fresh(u)
    ensures dst.Map() == Union(old(dst.Map()), old(src.Map()))
  {
    hide *;
    AtFirst(src);
    added := 0;
    var cur := src.header;
    ghost var t, e, i := dst.Map(), src.entries, 0;
    src.Meaning();
    SummedIsUnion(t, e);
    while cur != null
      invariant dst.Valid() && src.Valid() && Disjoint(dst, src) && Cursor(src, cur, i) && src.entries == e && i <= |e|
      invariant cur == null ==> i == |e|
      invariant forall o :: o in dst.repr ==> o in old(dst.repr) || fresh(o)
      invariant forall u :: u in dst.members ==> u in old(dst.members) || fresh(u)
      invariant dst.Map() == Summed(t, e, i) && added == dst.Total() - old(dst.Total())
      decreases |e| - i
    {
      var more;
      more, cur := MergeStep(dst, src, cur, e, i, t);
      added := added + more;
      i := i + 1;
    }
  }

  method MergeStep(dst: GtidSet, src: GtidSet, cur: UuidSet, ghost e: seq<Entry>, ghost i: nat, ghost t: Table)
    returns (added: int, next: UuidSet?)
    requires dst.Valid() && src.Valid() && Disjoint(dst, src) && Cursor(src, cur, i) && src.entries == e && i <= |e|
    requires dst.Map() == Summed(t, e, i)
    modifies dst`header, dst`tail, dst`sets, dst`entries, dst`members, dst`repr, dst.repr, dst.members`next
    ensures dst.Valid() && src.Valid() && Disjoint(dst, src) && Cursor(src, next, i + 1) && src.entries == e
    ensures i + 1 <= |e| && (next == null ==> i + 1 == |e|)
    ensures forall o :: o in dst.repr ==> o in old(dst.repr) || fresh(o)
    ensures forall u :: u in dst.members ==> u in old(dst.members) || fresh(u)
    ensures dst.Map() == Summed(t, e, i + 1) && added == dst.Total() - old(dst.Total())
  {
    hide *;
    src.Pointers();
    AtCursor(src, cur, i);
    added, next := MergeFrom(dst, src, cur, i);
    NextSum(t, e, i);
    NextCursor(src, next, e, i);
  }

  method MergeFrom(dst: GtidSet, src: GtidSet, cur: UuidSet, ghost i: nat) returns (added: int, next: UuidSet?)
    requires dst.Valid() && src.Valid() && Disjoint(dst, src)
    requires cur in src.members && Cursor(src, cur.next, i + 1) && cur.Valid() && cur.Repr() <= src.repr
    modifies dst`header, dst`tail, dst`sets, dst`entries, dst`members, dst`repr, dst.repr, dst.members`next
    ensures dst.Valid() && src.Valid() && Disjoint(dst, src) && Cursor(src, next, i + 1) && src.entries == old(src.entries)
    ensures forall o :: o in dst.repr ==> o in old(dst.repr) || fresh(o)
    ensures forall u :: u in dst.members ==> u in old(dst.members) || fresh(u)
    ensures dst.Map() == Added(old(dst.Map()), cur.uuid, old(cur.Row().gnos)) && added == dst.Total() - old(dst.Total())
  {
    hide GtidSet.Valid, GtidSet.Listed, GtidSet.Map, GtidSet.Total, UuidSet.Valid, UuidSet.Repr, UuidSet.Row, Added, Cursor;
    added := dst.MergeOne(cur);
    next := cur.next;
  }

  lemma NextSum(t: Table, e: seq<Entry>, i: nat)
    requires i < |e|
    ensures Summed(t, e, i + 1) == Added(Summed(t, e, i), e[i].uuid, e[i].gnos)
  {
  }

  lemma NextCursor(g: GtidSet, next: UuidSet?, e: seq<Entry>, i: nat)
    requires g.Valid() && Cursor(g, next, i + 1) && g.entries == e
    ensures i + 1 <= |e| && (next == null ==> i + 1 == |e|)
  {
    g.Pointers();
    AtCursor(g, next, i + 1);
  }

  // ----- Difference ----------------------------------------------------------------------------------

  // Remove from dst the ids of src; returns how many there were. Members left empty go.
  method Diff(dst: GtidSet, src: GtidSet?) returns (removed: int)
    requires dst.Valid() && dst.current == null && (src != null ==> src.Valid() && Disjoint(dst, src))
    modifies dst`header, dst`tail, dst`cached, dst`sets, dst`entries, dst`members, dst`repr, dst.repr, dst.members`next
    ensures dst.Valid() && dst.current == null && removed == old(dst.Total()) - dst.Total()
    ensures dst.members == old(dst.members) && forall o :: o in dst.repr ==> o in old(dst.repr) || fresh(o)
    ensures dst.Map() == if src == null then old(dst.Map()) else Difference(old(dst.Map()), old(src.Map()))
  {
    if src == null { return 0; }
    hide *;
    removed := 0;
    var cur: UuidSet?, prev: UuidSet? := dst.header, null;
    ghost var s, e, b, k, i := dst.sets, dst.entries, src.Map(), 0, 0;
    StartDiff(dst, src);
    while cur != null
      invariant dst.Valid() && src.Valid() && Disjoint(dst, src) && dst.current == null && src.Map() == b
      invariant i <= |e| == |s| && dst.Remaining(k, s, e, i) && Between(dst, prev, cur, k) && (cur == null ==> i == |e|)
      invariant dst.members == old(dst.members) && forall o :: o in dst.repr ==> o in old(dst.repr) || fresh(o)
      invariant dst.Map() == Reduced(ToTable(e), e, b, i) && removed == old(dst.Total()) - dst.Total()
      decreases |e| - i
    {
      var more, left, next := DiffStep(dst, src, prev, cur, s, e, b, k, i);
      removed := removed + more;
      if left {
        prev := cur;
        k := k + 1;
      }
      cur := next;
      i := i + 1;
    }
    ReducedIsDifference(e, b);
  }

  // cur is member number k of g and prev the one before.
  ghost predicate Between(g: GtidSet, prev: UuidSet?, cur: UuidSet?, k: nat)
    reads g`sets
  {
    Cursor(g, cur, k) && prev == (if k > 0 then g.sets[k - 1] else null)
  }

  lemma StartDiff(dst: GtidSet, src: GtidSet)
    requires dst.Valid() && src.Valid()
    ensures dst.Remaining(0, dst.sets, dst.entries, 0) && Between(dst, null, dst.header, 0)
    ensures dst.Map() == Reduced(ToTable(dst.entries), dst.entries, src.Map(), 0) && Unique(dst.entries)
    ensures |dst.sets| == |dst.entries| && (dst.header == null ==> |dst.entries| == 0)
  {
    AtFirst(dst);
    dst.Outside();
  }

  method DiffStep(dst: GtidSet, src: GtidSet, prev: UuidSet?, cur: UuidSet,
                  ghost s: seq<UuidSet>, ghost e: seq<Entry>, ghost b: Table, ghost k: nat, ghost i: nat)
    returns (removed: int, left: bool, next: UuidSet?)
    requires dst.Valid() && src.Valid() && Disjoint(dst, src) && dst.current == null && src.Map() == b
    requires i <= |e| == |s| && dst.Remaining(k, s, e, i) && Between(dst, prev, cur, k)
    requires dst.Map() == Reduced(ToTable(e), e, b, i)
    modifies dst`header, dst`tail, dst`cached, dst`sets, dst`entries, dst`members, dst`repr, dst.repr, dst.members`next
    ensures dst.Valid() && src.Valid() && Disjoint(dst, src) && dst.current == null && src.Map() == b
    ensures i + 1 <= |e| && (next == null ==> i + 1 == |e|)
    ensures var n := if left then k + 1 else k;
      dst.Remaining(n, s, e, i + 1) && Between(dst, if left then cur else prev, next, n)
    ensures dst.members == old(dst.members) && forall o :: o in dst.repr ==> o in old(dst.repr) || fresh(o)
    ensures dst.Map() == Reduced(ToTable(e), e, b, i + 1) && removed == old(dst.Total()) - dst.Total()
  {
    hide *;
    BeforeDiff(dst, prev, cur, s, e, b, k, i);
    next := cur.next;
    removed, left := DiffFrom(dst, src, prev, cur, k);
    AfterDiff(dst, prev, cur, next, left, old(dst.sets), old(dst.entries), s, e, k, i);
  }

  method DiffFrom(dst: GtidSet, src: GtidSet, prev: UuidSet?, cur: UuidSet, ghost k: nat) returns (removed: int, left: bool)
    requires dst.Valid() && src.Valid() && Disjoint(dst, src) && dst.current == null
    requires k < |dst.sets| && cur == dst.sets[k] && prev == (if k > 0 then dst.sets[k - 1] else null)
    modifies dst`header, dst`tail, dst`cached, dst`sets, dst`entries, dst`members, dst`repr, dst.repr, dst.members`next
    ensures dst.Valid() && src.Valid() && Disjoint(dst, src) && dst.current == null && src.Map() == old(src.Map())
    ensures dst.members == old(dst.members) && forall o :: o in dst.repr ==> o in old(dst.repr) || fresh(o)
    ensures dst.Map() == Removed(old(dst.Map()), cur.uuid, At(old(src.Map()), cur.uuid))
    ensures removed == old(dst.Total()) - dst.Total()
    ensures dst.Remaining(if left then k + 1 else k, old(dst.sets), old(dst.entries), k + 1)
    ensures left ==> k < |dst.sets| && dst.sets[k] == cur
    ensures !left && k > 0 ==> k <= |dst.sets| && dst.sets[k - 1] == prev
  {
    hide *;
    src.Pointers();
    var other, j := src.Find(cur.uuid);
    Looked(src, other, cur.uuid, j);
    removed, left := DiffWith(dst, src, prev, cur, other, k);
  }

  method DiffWith(dst: GtidSet, src: GtidSet, prev: UuidSet?, cur: UuidSet, other: UuidSet?, ghost k: nat)
    returns (removed: int, left: bool)
    requires dst.Valid() && src.Valid() && Disjoint(dst, src) && dst.current == null
    requires k < |dst.sets| && cur == dst.sets[k] && prev == (if k > 0 then dst.sets[k - 1] else null)
    requires other != null ==> other.Valid() && other.Repr() <= src.repr && other.uuid == cur.uuid
    modifies dst`header, dst`tail, dst`cached, dst`sets, dst`entries, dst`members, dst`repr, dst.repr, dst.members`next
    ensures dst.Valid() && src.Valid() && Disjoint(dst, src) && dst.current == null && src.Map() == old(src.Map())
    ensures dst.members == old(dst.members) && forall o :: o in dst.repr ==> o in old(dst.repr) || fresh(o)
    ensures dst.Map() == Removed(old(dst.Map()), cur.uuid, old(GnosOf(other)))
    ensures removed == old(dst.Total()) - dst.Total()
    ensures dst.Remaining(if left then k + 1 else k, old(dst.sets), old(dst.entries), k + 1)
    ensures left ==> k < |dst.sets| && dst.sets[k] == cur
    ensures !left && k > 0 ==> k <= |dst.sets| && dst.sets[k - 1] == prev
  {
    hide GtidSet.Valid, GtidSet.Listed, GtidSet.Map, GtidSet.Total, GtidSet.Remaining, GtidSets.In;
    hide UuidSet.Valid, UuidSet.Repr, UuidSet.Row, GnosOf, Removed, At, ToTable;
    removed, left := dst.DiffOne(prev, cur, other, k);
  }

  // What a search for the uuid has found.
  lemma Looked(g: GtidSet, u: UuidSet?, uuid: Uuid, k: nat)
    requires g.Listed() && k <= |g.sets| && u == (if k < |g.sets| then g.sets[k] else null)
    requires if u == null then uuid !in ToTable(g.entries) else u.uuid == uuid
    ensures GnosOf(u) == At(g.Map(), uuid)
    ensures u != null ==> u.Valid() && u.Repr() <= g.repr && u.uuid == uuid
  {
    if u != null {
      g.Others(k);
      g.Outside();
      TableAt(g.entries, k);
    }
  }

  lemma BeforeDiff(dst: GtidSet, prev: UuidSet?, cur: UuidSet, s: seq<UuidSet>, e: seq<Entry>, b: Table, k: nat, i: nat)
    requires dst.Valid() && i <= |e| == |s| && dst.Remaining(k, s, e, i) && Between(dst, prev, cur, k)
    ensures i < |e| && dst.Listed() && cur.uuid == e[i].uuid
    ensures k < |dst.sets| == |dst.entries| && cur == dst.sets[k] && prev == (if k > 0 then dst.sets[k - 1] else null)
    ensures dst.sets[k..] == s[i..] && dst.entries[k..] == e[i..]
    ensures cur.next == (if i + 1 < |s| then s[i + 1] else null)
    ensures Reduced(ToTable(e), e, b, i + 1) == Removed(Reduced(ToTable(e), e, b, i), e[i].uuid, At(b, e[i].uuid))
  {
    dst.Pointers();
    AtCursor(dst, cur, k);
    assert dst.entries[k..][0] == e[i..][0];
    assert k + 1 < |dst.sets| ==> dst.sets[k..][1] == s[i..][1];
  }

  lemma AfterDiff(dst: GtidSet, prev: UuidSet?, cur: UuidSet, next: UuidSet?, left: bool, t: seq<UuidSet>, f: seq<Entry>,
                  s: seq<UuidSet>, e: seq<Entry>, k: nat, i: nat)
    requires i < |e| == |s| && k < |t| == |f| && t[k..] == s[i..] && f[k..] == e[i..]
    requires next == (if i + 1 < |s| then s[i + 1] else null) && cur == t[k] && prev == (if k > 0 then t[k - 1] else null)
    requires dst.Remaining(if left then k + 1 else k, t, f, k + 1)
    requires left ==> k < |dst.sets| && dst.sets[k] == cur
    requires !left && k > 0 ==> k <= |dst.sets| && dst.sets[k - 1] == prev
    ensures (next == null ==> i + 1 == |e|)
    ensures var n := if left then k + 1 else k;
      dst.Remaining(n, s, e, i + 1) && Between(dst, if left then cur else prev, next, n)
  {
    assert t[k + 1..] == t[k..][1..] && f[k + 1..] == f[k..][1..];
    assert s[i + 1..] == s[i..][1..] && e[i + 1..] == e[i..][1..];
    var n := if left then k + 1 else k;
    assert |dst.sets| - n == |s| - (i + 1);
    assert n < |dst.sets| ==> dst.sets[n..][0] == s[i + 1..][0];
  }

  // ----- Copy, comparison -----------------------------------------------------------------------------

  method Dup(g: GtidSet) returns (r: GtidSet)
    requires g.Valid()
    ensures fresh(r) && r.Valid() && r.entries == g.entries && r.current == null && r.curnext == 0
    ensures (forall o :: o in r.repr ==> fresh(o)) && forall u :: u in r.members ==> fresh(u)
  {
    hide *;
    r := new GtidSet();
    NothingShared(r, g);
    AtFirst(g);
    var cur := g.header;
    ghost var e, i := g.entries, 0;
    while cur != null
      invariant g.Valid() && g.entries == e && Cursor(g, cur, i) && i <= |e| && (cur == null ==> i == |e|)
      invariant r.Valid() && r.entries == e[..i] && r.current == null && r.curnext == 0 && Disjoint(r, g)
      invariant (forall o :: o in r.repr ==> fresh(o)) && forall u :: u in r.members ==> fresh(u)
      decreases |e| - i
    {
      cur := CopyMember(g, cur, r, e, i);
      i := i + 1;
    }
  }

  lemma NothingShared(a: GtidSet, b: GtidSet)
    requires a != b && a !in b.repr && a.repr == {} && a.members == {}
    ensures Disjoint(a, b)
  {
  }

  method CopyMember(g: GtidSet, cur: UuidSet, r: GtidSet, ghost e: seq<Entry>, ghost i: nat) returns (next: UuidSet?)
    requires g.Valid() && g.entries == e && Cursor(g, cur, i) && i <= |e|
    requires r.Valid() && r.entries == e[..i] && Disjoint(r, g)
    modifies r`header, r`tail, r`sets, r`entries, r`members, r`repr, r.members`next
    ensures g.Valid() && g.entries == e && Cursor(g, next, i + 1) && i + 1 <= |e| && (next == null ==> i + 1 == |e|)
    ensures r.Valid() && r.entries == e[..i + 1] && Disjoint(r, g)
    ensures (forall o :: o in r.repr ==> o in old(r.repr) || fresh(o))
    ensures forall u :: u in r.members ==> u in old(r.members) || fresh(u)
  {
    hide *;
    ReadyToCopy(g, cur, e, i);
    next := CopyFrom(g, cur, r, i);
    NextCursor(g, next, e, i);
  }

  method CopyFrom(g: GtidSet, cur: UuidSet, r: GtidSet, ghost i: nat) returns (next: UuidSet?)
    requires g.Valid() && r.Valid() && Disjoint(r, g) && cur.uuid !in ToTable(r.entries)
    requires cur in g.members && Cursor(g, cur.next, i + 1) && cur.Valid() && cur.Repr() <= g.repr
    modifies r`header, r`tail, r`sets, r`entries, r`members, r`repr, r.members`next
    ensures g.Valid() && g.entries == old(g.entries) && Cursor(g, next, i + 1)
    ensures r.Valid() && r.entries == old(r.entries + [cur.Row()]) && Disjoint(r, g)
    ensures (forall o :: o in r.repr ==> o in old(r.repr) || fresh(o))
    ensures forall u :: u in r.members ==> u in old(r.members) || fresh(u)
  {
    hide GtidSet.Valid, GtidSet.Listed, GtidSet.Map, GtidSet.Total, UuidSet.Valid, UuidSet.Repr, UuidSet.Row;
    hide ToTable, Added, Cursor;
    var more := r.AppendCopy(cur);
    next := cur.next;
  }

  lemma ReadyToCopy(g: GtidSet, cur: UuidSet, e: seq<Entry>, i: nat)
    requires g.Valid() && g.entries == e && Cursor(g, cur, i) && i <= |e|
    ensures i < |e| && cur.Valid() && cur.Row() == e[i] && cur.uuid !in ToTable(e[..i]) && e[..i + 1] == e[..i] + [e[i]]
    ensures Cursor(g, cur.next, i + 1) && cur in g.members && cur.Repr() <= g.repr
  {
    g.Pointers();
    AtCursor(g, cur, i);
    NextIsNew(e, i);
  }

  // Whether the two sets hold the same ids; empty uuid sets do not matter.
  method Equal(set1: GtidSet, set2: GtidSet) returns (equal: bool)
    requires set1.Valid() && set2.Valid()
    ensures equal == (Ids(set1.Map()) == Ids(set2.Map()))
  {
    hide *;
    EqualIds(set1.Map(), set2.Map());
    var more := Surplus(set1, set2);
    if more != 0 { return false; }
    var fewer := Surplus(set2, set1);
    return fewer == 0;
  }

  // How many ids a has that b has not.
  method Surplus(a: GtidSet, b: GtidSet) returns (count: int)
    requires a.Valid() && b.Valid()
    ensures count == |Ids(Difference(a.Map(), b.Map()))| && a.Valid() && b.Valid()
  {
    hide GtidSet.Valid, GtidSet.Listed, GtidSet.Total, ToTable, Difference, Ids;
    var d := Dup(a);
    var removed := Diff(d, b);
    count := d.Count();
  }

  // Whether some uuid occurs in both.
  method Related(set1: GtidSet, set2: GtidSet) returns (related: bool)
    requires set1.Valid() && set2.Valid()
    ensures related == exists u :: u in set1.Map() && u in set2.Map()
  {
    hide *;
    AtFirst(set2);
    var cur := set2.header;
    ghost var e, i := set2.entries, 0;
    while cur != null
      invariant set1.Valid() && set2.Valid() && set2.entries == e && Cursor(set2, cur, i)
      invariant i <= |e| && (cur == null ==> i == |e|)
      invariant forall j :: 0 <= j < i ==> e[j].uuid !in set1.Map()
      decreases |e| - i
    {
      set2.Pointers();
      AtCursor(set2, cur, i);
      NextCursor(set2, cur.next, e, i);
      set1.Pointers();
      set1.Meaning();
      var u, k := set1.Find(cur.uuid);
      if u != null {
        IsRelated(set1, set2, i);
        return true;
      }
      cur := cur.next;
      i := i + 1;
    }
    NotRelated(set1, set2);
    return false;
  }

  lemma IsRelated(set1: GtidSet, set2: GtidSet, i: nat)
    requires set2.Valid() && i < |set2.entries| && set2.entries[i].uuid in set1.Map()
    ensures exists u :: u in set1.Map() && u in set2.Map()
  {
    TableKeys(set2.entries);
  }

  lemma NotRelated(set1: GtidSet, set2: GtidSet)
    requires forall j :: 0 <= j < |set2.entries| ==> set2.entries[j].uuid !in set1.Map()
    ensures !exists u :: u in set1.Map() && u in set2.Map()
  {
    TableKeys(set2.entries);
  }
}
