/** GTID sets: a linked list of uuid sets with a cached and a current one. */
module GtidSets {
  import opened Intervals
  import opened IntervalEdits
  import opened SkipLists
  import opened Tables
  import opened UuidSets
  import Seqs

  // The lists of two uuid sets share nothing.
  ghost predicate Separate(s: seq<UuidSet>, i: nat, j: nat)
    requires i < |s| && j < |s|
    reads s[i].intervals, s[j].intervals
  {
    s[i].Repr() !! s[j].Repr()
  }

  ghost predicate Sound(s: seq<UuidSet>, repr: set<object>)
    reads repr
  {
    && (forall i :: 0 <= i < |s| ==> s[i] !in repr && s[i].intervals in repr && s[i].Repr() <= repr && s[i].Valid())
    && (forall i, j :: 0 <= i < j < |s| ==> s[i].intervals in repr && s[j].intervals in repr && Separate(s, i, j))
  }

  ghost predicate Linked(s: seq<UuidSet>, header: UuidSet?, tail: UuidSet?)
    reads s`next
  {
    && header == (if s == [] then null else s[0])
    && tail == (if s == [] then null else s[|s| - 1])
    && (forall i :: 0 <= i < |s| ==> Follows(s, i))
  }

  ghost predicate Follows(s: seq<UuidSet>, i: nat)
    requires i < |s|
    reads s`next
  {
    s[i].next == (if i + 1 < |s| then s[i + 1] else null)
  }

  ghost predicate Inside(s: seq<UuidSet>, members: set<UuidSet>, repr: set<object>) {
    && (forall i :: 0 <= i < |s| ==> s[i] in members)
    && (forall u :: u in members ==> u !in repr)
  }

  ghost predicate Rows(s: seq<UuidSet>, e: seq<Entry>, repr: set<object>)
    reads repr
  {
    |e| == |s| && forall i :: 0 <= i < |s| ==> s[i].intervals in repr && e[i] == s[i].Row()
  }

  ghost predicate In(u: UuidSet?, s: seq<UuidSet>) {
    u == null || u in s
  }

  lemma StaysIn(u: UuidSet?, s: seq<UuidSet>, x: UuidSet)
    ensures In(u, s) ==> In(u, s + [x])
    ensures In(x, s + [x])
  {
  }

  lemma Nobody(s: seq<UuidSet>)
    ensures In(null, s)
  {
  }

  lemma Here(s: seq<UuidSet>, k: nat)
    requires k < |s|
    ensures In(s[k], s)
  {
  }

  // A uuid set is not part of any list.
  lemma NotANode(u: UuidSet, list: SkipList)
    ensures u !in list.Repr()
  {
  }

  ghost predicate Differ(s: seq<UuidSet>, i: nat, j: nat)
    requires i < |s| && j < |s|
  {
    s[i] != s[j]
  }

  ghost predicate Distinct(s: seq<UuidSet>) {
    forall i, j :: 0 <= i < j < |s| ==> Differ(s, i, j)
  }

  lemma RowsDistinct(s: seq<UuidSet>, e: seq<Entry>, repr: set<object>)
    requires Rows(s, e, repr) && Unique(e)
    ensures Distinct(s)
  {
    forall i, j | 0 <= i < j < |s| ensures Differ(s, i, j) {
      assert Unlike(e, i, j);
    }
  }

  ghost function Just(u: UuidSet?): set<UuidSet> {
    if u == null then {} else {u}
  }

  method LinkLast(header: UuidSet?, tail: UuidSet?, u: UuidSet, ghost s: seq<UuidSet>, ghost t: seq<UuidSet>)
    requires Linked(s, header, tail) && Distinct(s) && u !in s && u.next == null && t == s + [u]
    modifies Just(tail)`next
    ensures Linked(t, if header == null then u else header, u)
  {
    if tail != null {
      forall i | 0 <= i < |s| - 1 ensures s[i] != tail {
        assert Differ(s, i, |s| - 1);
      }
      tail.next := u;
    }
    forall i | 0 <= i < |t| ensures Follows(t, i) {
      assert i < |s| ==> old(Follows(s, i));
    }
  }

  method LinkOver(header: UuidSet?, tail: UuidSet?, prev: UuidSet?, cur: UuidSet,
                  ghost s: seq<UuidSet>, ghost k: nat, ghost t: seq<UuidSet>)
    requires Linked(s, header, tail) && Distinct(s)
    requires k < |s| && cur == s[k] && prev == (if k > 0 then s[k - 1] else null) && t == Seqs.Cut(s, k, k + 1)
    modifies Just(prev)`next
    ensures cur.next == old(cur.next)
    ensures Linked(t, if header == cur then cur.next else header, if tail == cur then prev else tail)
  {
    assert k > 0 ==> Differ(s, 0, k);
    assert k < |s| - 1 ==> Differ(s, k, |s| - 1);
    assert k > 0 ==> Differ(s, k - 1, k);
    if prev != null {
      forall i | 0 <= i < |s| && i != k - 1 ensures s[i] != prev {
        assert Differ(s, if i < k - 1 then i else k - 1, if i < k - 1 then k - 1 else i);
      }
      prev.next := cur.next;
    }
    assert old(Follows(s, k));
    assert t != [] ==> t[0] == s[if k == 0 then 1 else 0] && t[|t| - 1] == s[if k == |s| - 1 then k - 1 else |s| - 1];
    forall i | 0 <= i < |t| ensures Follows(t, i) {
      assert t[i] == s[if i < k then i else i + 1];
      assert i + 1 < |t| ==> t[i + 1] == s[if i + 1 < k then i + 1 else i + 2];
      assert old(Follows(s, if i < k then i else i + 1));
    }
  }

  lemma SoundAppend(s: seq<UuidSet>, repr: set<object>, u: UuidSet)
    requires Sound(s, repr) && u.Valid() && u !in repr && u.Repr() !! repr
    ensures Sound(s + [u], repr + u.Repr())
  {
    forall i | 0 <= i < |s| ensures s[i] !in u.Repr() {
      NotANode(s[i], u.intervals);
    }
    NotANode(u, u.intervals);
    var t := s + [u];
    forall i, j | 0 <= i < j < |t| ensures t[i].Repr() !! t[j].Repr() {
      if j < |s| {
        assert Separate(s, i, j);
      } else {
        assert t[i].Repr() <= repr;
      }
    }
  }

  lemma SoundCut(s: seq<UuidSet>, repr: set<object>, k: nat)
    requires Sound(s, repr) && k < |s|
    ensures Sound(Seqs.Cut(s, k, k + 1), repr)
  {
    var t := Seqs.Cut(s, k, k + 1);
    assert forall i :: 0 <= i < |t| ==> t[i] == s[if i < k then i else i + 1];
    forall i, j | 0 <= i < j < |t| ensures t[i].Repr() !! t[j].Repr() {
      assert Separate(s, if i < k then i else i + 1, if j < k then j else j + 1);
    }
  }

  lemma InsideAppend(s: seq<UuidSet>, members: set<UuidSet>, repr: set<object>, u: UuidSet,
                     t: seq<UuidSet>, m: set<UuidSet>, r: set<object>)
    requires Inside(s, members, repr) && u !in repr
    requires t == s + [u] && m == members + {u} && r == repr + u.Repr()
    ensures Inside(t, m, r) && forall v :: v in members ==> v !in r
  {
    forall v | v in m ensures v !in u.Repr() {
      NotANode(v, u.intervals);
    }
  }

  lemma RowsAppend(s: seq<UuidSet>, e: seq<Entry>, repr: set<object>, u: UuidSet, row: Entry,
                   t: seq<UuidSet>, f: seq<Entry>, r: set<object>)
    requires Rows(s, e, repr) && row == u.Row() && u.Valid()
    requires t == s + [u] && f == e + [row] && r == repr + u.Repr()
    ensures Rows(t, f, r)
  {
  }

  lemma InsideCut(s: seq<UuidSet>, members: set<UuidSet>, repr: set<object>, k: nat)
    requires Inside(s, members, repr) && k < |s|
    ensures Inside(Seqs.Cut(s, k, k + 1), members, repr)
  {
  }

  lemma RowsCut(s: seq<UuidSet>, e: seq<Entry>, repr: set<object>, k: nat)
    requires Rows(s, e, repr) && k < |s|
    ensures Rows(Seqs.Cut(s, k, k + 1), Seqs.Cut(e, k, k + 1), repr)
  {
  }

  class GtidSet {
    // The next gno of the current uuid set, if above 0.
    var curnext: int
    var current: UuidSet?
    // The uuid set that was looked up last.
    var cached: UuidSet?
    var header: UuidSet?
    var tail: UuidSet?

    ghost var sets: seq<UuidSet>   // the list, header first
    ghost var entries: seq<Entry>  // what its members hold
    ghost var members: set<UuidSet>
    ghost var repr: set<object>    // their skip lists

    ghost predicate Listed()
      reads this`header, this`tail, this`sets, this`entries, this`members, this`repr, repr, members`next
    {
      && this !in repr && Inside(sets, members, repr) && Sound(sets, repr)
      && Linked(sets, header, tail) && Rows(sets, entries, repr) && Unique(entries)
    }

    ghost predicate Valid()
      reads this, repr, members`next
    {
      && Listed()
      && In(current, sets) && In(cached, sets)
    }

    // What the set means.
    ghost function Map(): Table
      reads this`entries
    {
      ToTable(entries)
    }

    // The sum of the counters.
    ghost function Total(): int
      reads this`entries
    {
      Size(entries)
    }

    constructor ()
      ensures Valid() && entries == [] && sets == [] && repr == {} && members == {} && current == null && curnext == 0
    {
      curnext := 0;
      current := null;
      cached := null;
      header := null;
      tail := null;
      sets := [];
      entries := [];
      members := {};
      repr := {};
    }

    lemma TotalIsExact()
      requires Valid()
      ensures Total() == |Ids(Map())|
    {
      forall i | 0 <= i < |entries| ensures entries[i].count == |entries[i].gnos| {
        sets[i].intervals.CountIsExact();
      }
      SizeIsCount(entries);
    }

    // ----- Changing one member --------------------------------------------------------------------

    // What an operation on sets[k] may rely on ...
    lemma Others(k: nat)
      requires Listed() && k < |sets|
      ensures sets[k].Valid() && sets[k].Row() == entries[k] && sets[k].uuid == entries[k].uuid
      ensures this !in sets[k].Repr() && sets[k].Repr() <= repr
      ensures sets[k] in members && forall u :: u in members ==> u !in sets[k].Repr()
      ensures forall i :: 0 <= i < |sets| && i != k ==>
        sets[i].Valid() && sets[i].intervals in sets[i].Repr() && sets[i].Repr() !! sets[k].Repr()
      ensures forall i :: 0 <= i < |sets| ==> sets[i].Repr() <= repr
      ensures |entries| == |sets| && this !in repr
    {
      forall u | u in members ensures u !in sets[k].Repr() {
        NotANode(u, sets[k].intervals);
      }
      forall i | 0 <= i < |sets| && i != k ensures sets[i].Repr() !! sets[k].Repr() {
        assert Separate(sets, if i < k then i else k, if i < k then k else i);
      }
    }

    // ... and what is left to say about the list afterwards.
    twostate lemma Edited(k: nat)
      requires old(Listed()) && unchanged(this) && k < |sets|
      requires forall u :: u in members ==> u.next == old(u.next)
      requires sets[k].Valid() && forall o :: o in sets[k].Repr() ==> o in old(sets[k].Repr()) || fresh(o)
      requires forall i :: 0 <= i < |sets| && i != k ==>
        sets[i].Valid() && sets[i].Row() == old(sets[i].Row()) && sets[i].Repr() == old(sets[i].Repr())
      ensures Inside(sets, members, repr + sets[k].Repr()) && this !in sets[k].Repr()
      ensures Sound(sets, repr + sets[k].Repr()) && Linked(sets, header, tail)
      ensures Rows(sets, entries[k := sets[k].Row()], repr + sets[k].Repr()) && Unique(entries[k := sets[k].Row()])
    {
      forall u | u in members ensures u !in sets[k].Repr() {
        NotANode(u, sets[k].intervals);
      }
      EditedLists(k);
      EditedLinks();
      hide Sound, Linked, Rows, Unique;
      EditedRows(k);
    }

    twostate lemma EditedRows(k: nat)
      requires old(Rows(sets, entries, repr)) && Unique(entries) && unchanged(this) && k < |sets|
      requires forall i :: 0 <= i < |sets| && i != k ==> sets[i].Row() == old(sets[i].Row())
      ensures Rows(sets, entries[k := sets[k].Row()], repr + sets[k].Repr()) && Unique(entries[k := sets[k].Row()])
    {
      hide ToTable, UuidSet.Valid, UuidSet.Repr;
      UpdatedTable(entries, k, sets[k].Row());
    }

    twostate lemma EditedLinks()
      requires old(Listed()) && unchanged(this)
      requires forall u :: u in members ==> u.next == old(u.next)
      ensures Linked(sets, header, tail)
    {
      hide Sound, Rows, Unique;
      forall i | 0 <= i < |sets| ensures Follows(sets, i) {
        assert old(Follows(sets, i));
      }
    }

    twostate lemma EditedLists(k: nat)
      requires old(Listed()) && unchanged(this) && k < |sets|
      requires forall u :: u in members ==> u !in sets[k].Repr()
      requires sets[k].Valid() && forall o :: o in sets[k].Repr() ==> o in old(sets[k].Repr()) || fresh(o)
      requires forall i :: 0 <= i < |sets| && i != k ==> sets[i].Valid() && sets[i].Repr() == old(sets[i].Repr())
      ensures Sound(sets, repr + sets[k].Repr())
    {
      hide Linked, Rows, Unique;
      forall i, j | 0 <= i < j < |sets| ensures Separate(sets, i, j) {
        assert old(Separate(sets, i, j));
      }
    }

    lemma Whole()
      requires this !in repr && Inside(sets, members, repr) && Sound(sets, repr) && Linked(sets, header, tail)
      requires Rows(sets, entries, repr) && Unique(entries)
      ensures Listed()
    {
    }

    // The list from header to tail has become s.
    method Relink(header: UuidSet?, tail: UuidSet?,
                  ghost s: seq<UuidSet>, ghost e: seq<Entry>, ghost m: set<UuidSet>, ghost r: set<object>)
      requires this !in r && Inside(s, m, r) && Sound(s, r) && Linked(s, header, tail) && Rows(s, e, r) && Unique(e)
      modifies this`header, this`tail, this`sets, this`entries, this`members, this`repr
      ensures Listed() && this.header == header && this.tail == tail && sets == s && entries == e && members == m && repr == r
    {
      hide *;
      this.header, this.tail := header, tail;
      sets, entries, members, repr := s, e, m, r;
      Whole();
    }

    method AddAt(u: UuidSet, start: int, end: int, ghost k: nat) returns (added: int)
      requires Listed() && k < |sets| && u == sets[k] && end < GNO_MAX
      modifies this`entries, this`repr, u.Repr()
      ensures unchanged(`curnext, `current, `cached, `header, `tail, `sets, `members)
      ensures Listed() && forall o :: o in repr ==> o in old(repr) || fresh(o)
      ensures entries == old(entries)[k := Entry(u.uuid, old(entries)[k].gnos + Given(start, end), old(entries)[k].count + added)]
    {
      hide *;
      Others(k);
      added := u.Add(start, end);
      Edited(k);
      repr := repr + u.Repr();
      entries := entries[k := u.Row()];
      Whole();
    }

    method RemoveAt(u: UuidSet, start: int, end: int, ghost k: nat) returns (removed: int)
      requires Listed() && k < |sets| && u == sets[k] && end < GNO_MAX
      modifies this`entries, this`repr, u.Repr()
      ensures unchanged(`curnext, `current, `cached, `header, `tail, `sets, `members)
      ensures Listed() && forall o :: o in repr ==> o in old(repr) || fresh(o)
      ensures entries == old(entries)[k := Entry(u.uuid, old(entries)[k].gnos - Given(start, end), old(entries)[k].count - removed)]
    {
      hide *;
      Others(k);
      removed := u.Remove(start, end);
      Edited(k);
      repr := repr + u.Repr();
      entries := entries[k := u.Row()];
      Whole();
    }

    method NextAt(u: UuidSet, update: bool, ghost k: nat) returns (gno: int)
      requires Listed() && k < |sets| && u == sets[k]
      requires update ==> forall g :: g in entries[k].gnos ==> g + 1 < GNO_MAX
      modifies this`entries, this`repr, u.Repr()
      ensures unchanged(`curnext, `current, `cached, `header, `tail, `sets, `members)
      ensures Listed() && forall o :: o in repr ==> o in old(repr) || fresh(o)
      ensures IsNext(gno, old(entries)[k].gnos)
      ensures entries == if update then old(entries)[k := Entry(u.uuid, old(entries)[k].gnos + {gno}, old(entries)[k].count + 1)] else old(entries)
    {
      hide *;
      Others(k);
      gno := u.Next(update);
      Edited(k);
      repr := repr + u.Repr();
      entries := entries[k := u.Row()];
      Whole();
    }

    method MergeAt(u: UuidSet, src: UuidSet, ghost k: nat) returns (added: int)
      requires Listed() && k < |sets| && u == sets[k] && src.Valid() && src.Repr() !! repr && src.uuid == u.uuid
      modifies this`entries, this`repr, u.Repr()
      ensures unchanged(`curnext, `current, `cached, `header, `tail, `sets, `members)
      ensures Listed() && forall o :: o in repr ==> o in old(repr) || fresh(o)
      ensures entries == old(entries)[k := Entry(u.uuid, old(entries)[k].gnos + old(src.Row().gnos), old(entries)[k].count + added)]
    {
      hide *;
      Others(k);
      added := u.Merge(src);
      Edited(k);
      repr := repr + u.Repr();
      entries := entries[k := u.Row()];
      Whole();
    }

    method DiffAt(u: UuidSet, src: UuidSet, ghost k: nat) returns (removed: int)
      requires Listed() && k < |sets| && u == sets[k] && src.Valid() && src.Repr() !! repr && src.uuid == u.uuid
      modifies this`entries, this`repr, u.Repr()
      ensures unchanged(`curnext, `current, `cached, `header, `tail, `sets, `members)
      ensures Listed() && forall o :: o in repr ==> o in old(repr) || fresh(o)
      ensures entries == old(entries)[k := Entry(u.uuid, old(entries)[k].gnos - old(src.Row().gnos), old(entries)[k].count - removed)]
    {
      hide *;
      Others(k);
      removed := u.Diff(src);
      Edited(k);
      repr := repr + u.Repr();
      entries := entries[k := u.Row()];
      Whole();
    }

    // ----- The linked list ------------------------------------------------------------------------

    lemma First()
      requires Listed()
      ensures header == (if sets == [] then null else sets[0])
    {
    }

    lemma NextIs(k: nat)
      requires Listed() && k < |sets|
      ensures sets[k].next == (if k + 1 < |sets| then sets[k + 1] else null)
    {
      assert Follows(sets, k);
    }

    method Find(uuid: Uuid) returns (u: UuidSet?, ghost k: nat)
      requires Listed()
      ensures Listed() && k <= |sets| == |entries| && u == (if k < |sets| then sets[k] else null)
      ensures u != null ==> u.uuid == uuid == entries[k].uuid && uuid in ToTable(entries) && ToTable(entries)[uuid] == entries[k].gnos
      ensures u == null ==> uuid !in ToTable(entries)
    {
      hide *;
      First();
      u, k := header, 0;
      while u != null && u.uuid != uuid
        invariant k <= |sets| && u == (if k < |sets| then sets[k] else null)
        invariant forall i :: 0 <= i < k ==> sets[i].uuid != uuid
        invariant Listed()
        decreases |sets| - k
        modifies {}
      {
        NextIs(k);
        u := u.next;
        k := k + 1;
      }
      Located(uuid, k);
    }

    lemma Located(uuid: Uuid, k: nat)
      requires Listed() && k <= |sets|
      requires forall i :: 0 <= i < k ==> sets[i].uuid != uuid
      requires k < |sets| ==> sets[k].uuid == uuid
      ensures |entries| == |sets| && (k == |sets| ==> uuid !in ToTable(entries))
      ensures k < |sets| ==> entries[k].uuid == uuid && uuid in ToTable(entries) && ToTable(entries)[uuid] == entries[k].gnos
    {
      TableKeys(entries);
      if k < |sets| {
        TableAt(entries, k);
      }
    }

    // Put u at the end; returns how many gnos it brings.
    method Append(u: UuidSet) returns (added: int)
      requires Listed() && u.Valid() && u.next == null && u.uuid !in ToTable(entries)
      requires u !in repr && u.Repr() !! repr && this !in u.Repr()
      modifies this`header, this`tail, this`sets, this`entries, this`members, this`repr, members`next
      ensures Listed() && sets == old(sets) + [u] && entries == old(entries + [u.Row()])
      ensures members == old(members) + {u} && repr == old(repr + u.Repr()) && added == old(u.Row().count)
    {
      added := u.Count();
      ghost var row := u.Row();
      ghost var s, e, m, r := sets + [u], entries + [row], members + {u}, repr + u.Repr();
      hide *;
      NewMember(u, row, s, e, m, r);
      Attach(u, s, e, m, r);
    }

    method Attach(u: UuidSet, ghost s: seq<UuidSet>, ghost e: seq<Entry>, ghost m: set<UuidSet>, ghost r: set<object>)
      requires Linked(sets, header, tail) && Distinct(sets) && u !in sets && u.next == null && s == sets + [u]
      requires this !in r && Inside(s, m, r) && Sound(s, r) && Rows(s, e, r) && Unique(e)
      requires Just(tail) <= members && forall v :: v in members ==> v !in r
      modifies this`header, this`tail, this`sets, this`entries, this`members, this`repr, members`next
      ensures Listed() && sets == s && entries == e && members == m && repr == r
    {
      hide *;
      LinkLast(header, tail, u, sets, s);
      Relink(if header == null then u else header, u, s, e, m, r);
    }

    lemma NewMember(u: UuidSet, row: Entry, s: seq<UuidSet>, e: seq<Entry>, m: set<UuidSet>, r: set<object>)
      requires Listed() && u.Valid() && u.uuid !in ToTable(entries) && u !in repr && u.Repr() !! repr && row == u.Row()
      requires s == sets + [u] && e == entries + [row] && m == members + {u} && r == repr + u.Repr() && this !in u.Repr()
      ensures u !in sets && Distinct(sets) && this !in r
      ensures Inside(s, m, r) && Sound(s, r) && Rows(s, e, r) && Unique(e)
      ensures Linked(sets, header, tail) && Just(tail) <= members && forall v :: v in members ==> v !in r
    {
      NotThere(u);
      assert Linked(sets, header, tail) && Just(tail) <= members;
      assert Inside(sets, members, repr) && Sound(sets, repr) && Rows(sets, entries, repr) && this !in repr;
      hide *;
      SoundAppend(sets, repr, u);
      RowsDistinct(sets, entries, repr);
      AppendedTable(entries, row);
      InsideAppend(sets, members, repr, u, s, m, r);
      RowsAppend(sets, entries, repr, u, row, s, e, r);
    }

    lemma NotThere(u: UuidSet)
      requires Listed() && u.uuid !in ToTable(entries)
      ensures u !in sets && Unique(entries)
    {
      TableKeys(entries);
      assert forall i :: 0 <= i < |sets| ==> entries[i].uuid == sets[i].uuid;
    }

    // Take cur, which follows prev, out of the list.
    method Unlink(prev: UuidSet?, cur: UuidSet, ghost k: nat)
      requires Listed() && k < |sets| && cur == sets[k] && prev == (if k > 0 then sets[k - 1] else null)
      modifies this`header, this`tail, this`sets, this`entries, this`members, this`repr, members`next
      ensures Listed() && sets == Seqs.Cut(old(sets), k, k + 1) && entries == Seqs.Cut(old(entries), k, k + 1)
      ensures cur.next == old(cur.next) && members == old(members) && repr == old(repr)
    {
      hide *;
      OldMember(k);
      Bypass(prev, cur, k, Seqs.Cut(sets, k, k + 1), Seqs.Cut(entries, k, k + 1));
    }

    method Bypass(prev: UuidSet?, cur: UuidSet, ghost k: nat, ghost s: seq<UuidSet>, ghost e: seq<Entry>)
      requires Linked(sets, header, tail) && Distinct(sets) && k < |sets| && s == Seqs.Cut(sets, k, k + 1)
      requires cur == sets[k] && prev == (if k > 0 then sets[k - 1] else null)
      requires this !in repr && Inside(s, members, repr) && Sound(s, repr) && Rows(s, e, repr) && Unique(e)
      requires Just(prev) <= members && forall v :: v in members ==> v !in repr
      modifies this`header, this`tail, this`sets, this`entries, this`members, this`repr, members`next
      ensures Listed() && sets == s && entries == e && members == old(members) && repr == old(repr)
      ensures cur.next == old(cur.next)
    {
      hide *;
      LinkOver(header, tail, prev, cur, sets, k, s);
      Relink(if header == cur then cur.next else header, if tail == cur then prev else tail, s, e, members, repr);
    }

    lemma OldMember(k: nat)
      requires Listed() && k < |sets|
      ensures this !in repr && Distinct(sets) && |entries| == |sets| && Sound(Seqs.Cut(sets, k, k + 1), repr)
      ensures Inside(Seqs.Cut(sets, k, k + 1), members, repr) && forall v :: v in members ==> v !in repr
      ensures forall i :: 0 <= i < |sets| ==> sets[i] in members
      ensures Linked(sets, header, tail) && Just(if k > 0 then sets[k - 1] else null) <= members
      ensures Rows(Seqs.Cut(sets, k, k + 1), Seqs.Cut(entries, k, k + 1), repr) && Unique(Seqs.Cut(entries, k, k + 1))
    {
      assert this !in repr && |entries| == |sets| && Inside(sets, members, repr) && Linked(sets, header, tail);
      hide Listed, Sound, Linked, Rows, Unique, Distinct, Seqs.Cut;
      SoundCut(sets, repr, k);
      InsideCut(sets, members, repr, k);
      RowsDistinct(sets, entries, repr);
      RowsCut(sets, entries, repr, k);
      CutRow(entries, k);
    }

    // ----- Operations -----------------------------------------------------------------------------

    // The cached uuid set is the one that a search would find.
    lemma CachedIsFound(uuid: Uuid) returns (k: nat)
      requires Valid() && cached != null && cached.uuid == uuid
      ensures k < |sets| == |entries| && sets[k] == cached && entries[k].uuid == uuid
      ensures forall i :: 0 <= i < |sets| && i != k ==> sets[i].uuid != uuid
      ensures Listed()
    {
      k :| 0 <= k < |sets| && sets[k] == cached;
      forall i | 0 <= i < |sets| && i != k ensures sets[i].uuid != uuid {
        assert Unlike(entries, if i < k then i else k, if i < k then k else i);
      }
    }

    lemma Meaning()
      ensures Map() == ToTable(entries) && Total() == Size(entries)
    {
    }

    lemma Outside()
      requires Listed()
      ensures this !in repr && |entries| == |sets| && Unique(entries)
      ensures forall u :: u in members ==> u !in repr
    {
    }

    lemma Pointers()
      requires Valid()
      ensures Listed() && In(current, sets) && In(cached, sets)
    {
    }

    lemma Members()
      requires Valid()
      ensures Listed() && |entries| == |sets| && Unique(entries)
      ensures this !in repr && forall u :: u in members ==> u !in repr
      ensures In(current, sets) && In(cached, sets)
    {
    }

    lemma AllValid()
      requires Listed() && In(current, sets) && In(cached, sets)
      ensures Valid()
    {
    }

    // The uuid set that was found, or a new one at the end of the list.
    method Provide(found: UuidSet?, uuid: Uuid, ghost k: nat) returns (u: UuidSet)
      requires Listed() && k <= |sets| && found == (if k < |sets| then sets[k] else null)
      requires if found == null then uuid !in ToTable(entries) else found.uuid == uuid
      modifies this`header, this`tail, this`sets, this`entries, this`members, this`repr, members`next
      ensures Listed() && k < |sets| == |entries| && u == sets[k] && u.uuid == uuid == entries[k].uuid
      ensures forall o :: o in repr ==> o in old(repr) || fresh(o)
      ensures sets == if found == null then old(sets) + [u] else old(sets)
      ensures found == null ==> fresh(u)
      ensures Unique(entries) && Map() == Added(old(Map()), uuid, {})
      ensures forall u :: u in members ==> u in old(members) || fresh(u)
      ensures Total() == old(Total())
    {
      assert |entries| == |sets| && Unique(entries);
      if found == null {
        u := new UuidSet(uuid);
        Fresh(u);
        hide *;
        var none := Append(u);
      } else {
        u := found;
        TableAt(entries, k);
        AddedNothing(ToTable(entries), uuid);
      }
    }

    lemma Fresh(u: UuidSet)
      requires Listed() && u.Row() == Entry(u.uuid, {}, 0) && u.uuid !in ToTable(entries)
      ensures Unique(entries + [u.Row()]) && ToTable(entries + [u.Row()]) == Added(ToTable(entries), u.uuid, {})
      ensures Size(entries + [u.Row()]) == Size(entries) && (entries + [u.Row()])[|sets|].uuid == u.uuid
    {
      AppendedTable(entries, u.Row());
      AddedNothing(ToTable(entries), u.uuid);
    }

    method Cache(u: UuidSet?)
      requires Listed() && In(u, sets) && In(current, sets)
      modifies this`cached
      ensures Valid() && Listed() && cached == u
    {
      Outside();
      hide *;
      cached := u;
      AllValid();
    }

    // The uuid set to add to: the cached one if it fits, or a search, or a new one.
    method Select(uuid: Uuid) returns (cur: UuidSet, ghost k: nat)
      requires Valid()
      modifies this`header, this`tail, this`cached, this`sets, this`entries, this`members, this`repr, members`next
      ensures Valid() && Listed() && k < |sets| == |entries| && cur == sets[k] == cached && cur.uuid == uuid == entries[k].uuid
      ensures forall o :: o in repr ==> o in old(repr) || fresh(o)
      ensures sets == old(sets) || (fresh(cur) && sets == old(sets) + [cur])
      ensures Unique(entries) && Map() == Added(old(Map()), uuid, {})
      ensures forall u :: u in members ==> u in old(members) || fresh(u)
      ensures Total() == old(Total())
    {
      hide *;
      var found;
      found, k := Lookup(uuid);
      cur := Provide(found, uuid, k);
      StaysIn(current, old(sets), cur);
      Here(sets, k);
      Cache(cur);
    }

    method Lookup(uuid: Uuid) returns (found: UuidSet?, ghost k: nat)
      requires Valid()
      ensures Listed() && In(current, sets) && k <= |sets| && found == (if k < |sets| then sets[k] else null)
      ensures if found == null then uuid !in ToTable(entries) else found.uuid == uuid
    {
      Members();
      hide *;
      if cached != null && cached.uuid == uuid {
        k := CachedIsFound(uuid);
        found := cached;
      } else {
        found, k := Find(uuid);
      }
    }

    // Add the gnos of one uuid; returns how many were missing.
    method Add(uuid: Uuid, start: int, end: int) returns (added: int)
      requires Valid() && end < GNO_MAX
      modifies this, repr, members`next
      ensures Valid() && forall o :: o in repr ==> o in old(repr) || fresh(o)
      ensures Map() == Added(old(Map()), uuid, Given(start, end)) && added == Total() - old(Total())
      ensures cached != null && cached.uuid == uuid && current == old(current) && curnext == old(curnext)
      ensures forall u :: u in members ==> u in old(members) || fresh(u)
      ensures sets == old(sets) || (fresh(cached) && sets == old(sets) + [cached])
    {
      hide *;
      ghost var t := Map();
      var cur, k := Select(uuid);
      Others(k);
      Members();
      Meaning();
      ghost var e := entries;
      added := AddAt(cur, start, end, k);
      AddedRow(t, e, k, entries[k], Given(start, end));
      Meaning();
      AllValid();
    }

    method FindWithPrev(uuid: Uuid) returns (prev: UuidSet?, cur: UuidSet?, ghost k: nat)
      requires Listed()
      ensures Listed() && k <= |sets| == |entries| && cur == (if k < |sets| then sets[k] else null)
      ensures prev == (if 0 < k then sets[k - 1] else null)
      ensures if cur == null then uuid !in ToTable(entries) else cur.uuid == uuid == entries[k].uuid
    {
      hide *;
      First();
      prev, cur, k := null, header, 0;
      while cur != null && cur.uuid != uuid
        invariant k <= |sets| && cur == (if k < |sets| then sets[k] else null)
        invariant prev == (if 0 < k then sets[k - 1] else null)
        invariant forall i :: 0 <= i < k ==> sets[i].uuid != uuid
        invariant Listed()
        decreases |sets| - k
        modifies {}
      {
        NextIs(k);
        prev, cur := cur, cur.next;
        k := k + 1;
      }
      Located(uuid, k);
    }

    // cur has become empty: nothing may point to it any more.
    method Discard(prev: UuidSet?, cur: UuidSet, ghost k: nat)
      requires Listed() && k < |sets| && cur == sets[k] && prev == (if k > 0 then sets[k - 1] else null)
      requires In(current, sets)
      modifies this`current, this`header, this`tail, this`sets, this`entries, this`members, this`repr, members`next
      ensures Listed() && In(current, sets) && members == old(members) && repr == old(repr)
      ensures current == if old(current) == cur then null else old(current)
      ensures sets == Seqs.Cut(old(sets), k, k + 1) && entries == Seqs.Cut(old(entries), k, k + 1)
    {
      hide *;
      Outside();
      InCut(current, sets, k);
      Detach(cur);
      Unlink(prev, cur, k);
    }

    method Detach(cur: UuidSet)
      requires Listed()
      modifies this`current
      ensures Listed() && current == if old(current) == cur then null else old(current)
    {
      Outside();
      hide *;
      if current == cur { current := null; }
    }

    // Take gnos from cur; the uuid set that is left, if any.
    method Shrink(prev: UuidSet?, cur: UuidSet, start: int, end: int, ghost k: nat) returns (removed: int, left: UuidSet?)
      requires Listed() && In(current, sets) && end < GNO_MAX
      requires k < |sets| && cur == sets[k] && prev == (if k > 0 then sets[k - 1] else null)
      modifies this`current, this`header, this`tail, this`sets, this`entries, this`members, this`repr, repr, members`next
      ensures Listed() && In(current, sets) && In(left, sets) && forall o :: o in repr ==> o in old(repr) || fresh(o)
      ensures Map() == Removed(old(Map()), cur.uuid, Given(start, end)) && removed == old(Total()) - Total()
      ensures sets == if left == null then Seqs.Cut(old(sets), k, k + 1) else old(sets)
      ensures (left == null || left == cur) && members == old(members)
      ensures current == if left == null && old(current) == cur then null else old(current)
    {
      hide *;
      Meaning();
      Others(k);
      Outside();
      ghost var e := entries;
      removed := RemoveAt(cur, start, end, k);
      RemovedRow(e, k, entries[k], Given(start, end));
      CutRow(entries, k);
      Others(k);
      if cur.Count() == 0 {
        Discard(prev, cur, k);
        left := null;
        Nobody(sets);
      } else {
        Here(sets, k);
        left := cur;
      }
      Meaning();
    }

    // Remove gnos of one uuid; the number goes through an int.
    method Remove(uuid: Uuid, start: int, end: int) returns (removed: int)
      requires Valid() && end < GNO_MAX
      modifies this, repr, members`next
      ensures Valid() && forall o :: o in repr ==> o in old(repr) || fresh(o)
      ensures Map() == Removed(old(Map()), uuid, Given(start, end)) && removed == ToInt32(old(Total()) - Total())
      ensures -0x8000_0000 <= old(Total()) - Total() < 0x8000_0000 ==> removed == old(Total()) - Total()
      ensures members == old(members)
      ensures current == old(current) || (current == null && old(current).uuid == uuid)
    {
      hide *;
      Pointers();
      var prev, cur, k := FindWithPrev(uuid);
      removed, cur := RemoveFound(uuid, prev, cur, start, end, k);
      Cache(cur);
      removed := ToInt32(removed);
    }

    method RemoveFound(uuid: Uuid, prev: UuidSet?, cur: UuidSet?, start: int, end: int, ghost k: nat)
      returns (removed: int, left: UuidSet?)
      requires Listed() && In(current, sets) && end < GNO_MAX
      requires k <= |sets| && cur == (if k < |sets| then sets[k] else null) && prev == (if k > 0 then sets[k - 1] else null)
      requires if cur == null then uuid !in ToTable(entries) else cur.uuid == uuid
      modifies this`current, this`header, this`tail, this`sets, this`entries, this`members, this`repr, repr, members`next
      ensures Listed() && In(current, sets) && In(left, sets) && forall o :: o in repr ==> o in old(repr) || fresh(o)
      ensures Map() == Removed(old(Map()), uuid, Given(start, end)) && removed == old(Total()) - Total()
      ensures members == old(members)
      ensures current == old(current) || (current == null && old(current).uuid == uuid)
    {
      removed, left := 0, null;
      if cur != null {
        hide *;
        removed, left := Shrink(prev, cur, start, end, k);
      }
    }

    method Contains(uuid: Uuid, gno: int) returns (found: bool)
      requires Valid()
      modifies this`cached
      ensures Valid() && found == (Id(uuid, gno) in Ids(Map()))
      ensures if uuid in Map() then cached != null && cached.uuid == uuid else cached == null
    {
      hide *;
      Pointers();
      var u, k := Find(uuid);
      Cached(k);
      Cache(u);
      found := Holds(u, gno, k);
      Lookups(uuid, gno);
    }

    // Whether u, if there is one, has the gno.
    method Holds(u: UuidSet?, gno: int, ghost k: nat) returns (found: bool)
      requires Listed() && k <= |sets| == |entries| && u == (if k < |sets| then sets[k] else null)
      ensures found == (k < |sets| && gno in entries[k].gnos)
    {
      found := false;
      if u != null {
        Others(k);
        found := u.Contains(gno);
      }
    }

    lemma Cached(k: nat)
      requires k <= |sets|
      ensures In(if k < |sets| then sets[k] else null, sets)
    {
    }

    lemma Lookups(uuid: Uuid, gno: int)
      ensures uuid in ToTable(entries) ==> (Id(uuid, gno) in Ids(Map()) <==> gno in ToTable(entries)[uuid])
      ensures uuid !in ToTable(entries) ==> Id(uuid, gno) !in Ids(Map())
      ensures Map() == ToTable(entries)
    {
    }

    // The number after the last one of the uuid; with "update" it is added.
    method Next(uuid: Uuid, update: bool) returns (gno: int)
      requires Valid() && (update ==> forall g :: g in At(Map(), uuid) ==> g + 1 < GNO_MAX)
      modifies this, repr, members`next
      ensures Valid() && forall o :: o in repr ==> o in old(repr) || fresh(o)
      ensures IsNext(gno, At(old(Map()), uuid)) && current == old(current) && curnext == old(curnext)
      ensures Map() == if update then Added(old(Map()), uuid, {gno}) else old(Map())
      ensures forall u :: u in members ==> u in old(members) || fresh(u)
      ensures Total() == old(Total()) + (if update then 1 else 0)
    {
      hide *;
      Pointers();
      var u, k := Find(uuid);
      if u == null && !update {
        NoneYet(uuid);
        return GNO_INITIAL;
      }
      gno := NextOf(u, uuid, update, k);
    }

    lemma NoneYet(uuid: Uuid)
      requires uuid !in ToTable(entries)
      ensures IsNext(GNO_INITIAL, At(Map(), uuid))
    {
    }

    method NextOf(found: UuidSet?, uuid: Uuid, update: bool, ghost k: nat) returns (gno: int)
      requires Valid() && k <= |sets| && found == (if k < |sets| then sets[k] else null) && (found == null ==> update)
      requires if found == null then uuid !in ToTable(entries) else found.uuid == uuid && uuid in ToTable(entries)
      requires update ==> forall g :: g in At(Map(), uuid) ==> g + 1 < GNO_MAX
      modifies this, repr, members`next
      ensures Valid() && forall o :: o in repr ==> o in old(repr) || fresh(o)
      ensures IsNext(gno, At(old(Map()), uuid)) && current == old(current) && curnext == old(curnext)
      ensures Map() == if update then Added(old(Map()), uuid, {gno}) else old(Map())
      ensures forall u :: u in members ==> u in old(members) || fresh(u)
      ensures Total() == old(Total()) + (if update then 1 else 0)
    {
      hide *;
      Pointers();
      Meaning();
      ghost var t := Map();
      var u := Provide(found, uuid, k);
      StaysIn(current, old(sets), u);
      Here(sets, k);
      Cache(u);
      Others(k);
      Meaning();
      ghost var e := entries;
      RowOf(t, e, k);
      gno := NextAt(u, update, k);
      NextRow(t, e, k, entries[k], gno, update);
      Meaning();
      AllValid();
    }

    // ----- The current uuid set ---------------------------------------------------------------------

    // Make the set of a uuid current, adding an empty one if need be.
    method CurrentUuidSetUpdate(uuid: Uuid)
      requires Valid()
      modifies this, members`next
      ensures Valid() && forall o :: o in repr ==> o in old(repr) || fresh(o)
      ensures Map() == Added(old(Map()), uuid, {}) && Total() == old(Total())
      ensures forall u :: u in members ==> u in old(members) || fresh(u)
      ensures current != null && current.uuid == uuid && curnext == old(curnext)
    {
      hide *;
      Pointers();
      var found, k := Find(uuid);
      var u := Provide(found, uuid, k);
      StaysIn(cached, old(sets), u);
      Here(sets, k);
      MakeCurrent(u);
    }

    method MakeCurrent(u: UuidSet)
      requires Listed() && In(u, sets) && In(cached, sets)
      modifies this`current
      ensures Valid() && Listed() && current == u
    {
      Outside();
      hide *;
      current := u;
      AllValid();
    }

    lemma GnosAreBounded(uuid: Uuid)
      requires Valid()
      ensures forall g :: g in At(Map(), uuid) ==> GNO_INITIAL <= g < GNO_MAX
    {
      Pointers();
      Outside();
      if uuid in Map() {
        TableKeys(entries);
        var i :| 0 <= i < |entries| && entries[i].uuid == uuid;
        TableAt(entries, i);
        Others(i);
        AfterIsNext(sets[i].intervals.ivals);
      }
    }

    lemma Position(u: UuidSet) returns (k: nat)
      requires Listed() && In(u, sets)
      ensures k < |sets| == |entries| && sets[k] == u && entries[k].uuid == u.uuid && Unique(entries)
      ensures u.uuid in Map() && Map()[u.uuid] == entries[k].gnos
    {
      k :| 0 <= k < |sets| && sets[k] == u;
      TableAt(entries, k);
    }

    // The caller names the next gno, which must not have been passed yet.
    method CurrentUuidSetSetNextGno(gno: int)
      requires Valid() && current != null
      requires exists n :: IsNext(n, At(Map(), current.uuid)) && n <= gno
      modifies this`curnext, this`cached
      ensures Valid() && curnext == gno && cached == current
    {
      hide *;
      Pointers();
      ChooseNext(gno);
      Cache(current);
    }

    method ChooseNext(gno: int)
      requires Listed()
      modifies this`curnext
      ensures Listed() && curnext == gno
    {
      Outside();
      hide *;
      curnext := gno;
    }

    // The chosen gno, or else the one after the last; with "update" it is added and the choice is used up.
    method CurrentUuidSetNext(update: bool) returns (gno: int)
      requires Valid() && current != null
      requires update ==> curnext < GNO_MAX && forall g :: g in At(Map(), current.uuid) ==> g + 1 < GNO_MAX
      modifies this, repr
      ensures Valid() && forall o :: o in repr ==> o in old(repr) || fresh(o)
      ensures current == old(current) == cached && sets == old(sets) && members == old(members)
      ensures if old(curnext) == 0 then IsNext(gno, At(old(Map()), current.uuid)) else gno == old(curnext)
      ensures curnext == if update then 0 else old(curnext)
      ensures Map() == if update then Added(old(Map()), current.uuid, Given(gno, gno)) else old(Map())
    {
      hide *;
      Pointers();
      Cache(current);
      if curnext == 0 {
        gno := NextOfCurrent(update);
      } else {
        gno := curnext;
        if update {
          UseChosen(gno);
        }
      }
    }

    method NextOfCurrent(update: bool) returns (gno: int)
      requires Valid() && current != null
      requires update ==> forall g :: g in At(Map(), current.uuid) ==> g + 1 < GNO_MAX
      modifies this`entries, this`repr, repr
      ensures Valid() && forall o :: o in repr ==> o in old(repr) || fresh(o)
      ensures current == old(current) && cached == old(cached) && sets == old(sets) && curnext == old(curnext)
      ensures IsNext(gno, At(old(Map()), current.uuid))
      ensures Map() == if update then Added(old(Map()), current.uuid, Given(gno, gno)) else old(Map())
    {
      hide *;
      Pointers();
      ghost var k := Position(current);
      Others(k);
      Meaning();
      ghost var t, e := Map(), entries;
      SameRow(t, e, k);
      gno := NextAt(current, update, k);
      NextRow(t, e, k, entries[k], gno, update);
      NextIsGiven(gno, At(old(Map()), current.uuid));
      Meaning();
      AllValid();
    }

    method UseChosen(gno: int)
      requires Valid() && current != null && gno < GNO_MAX
      modifies this`entries, this`repr, this`curnext, repr
      ensures Valid() && forall o :: o in repr ==> o in old(repr) || fresh(o)
      ensures current == old(current) && cached == old(cached) && sets == old(sets) && curnext == 0
      ensures Map() == Added(old(Map()), current.uuid, Given(gno, gno))
    {
      hide *;
      Pointers();
      ghost var k := Position(current);
      Others(k);
      Meaning();
      ghost var t, e := Map(), entries;
      SameRow(t, e, k);
      var added := AddAt(current, gno, gno, k);
      AddedRow(t, e, k, entries[k], Given(gno, gno));
      Meaning();
      ChooseNext(0);
      AllValid();
    }

    // The number of ids, as a sum of the counters.
    method Count() returns (count: int)
      requires Valid()
      ensures count == Total() == |Ids(Map())|
    {
      hide *;
      TotalIsExact();
      Pointers();
      First();
      Meaning();
      Outside();
      SizeEnds(entries);
      count := 0;
      var cur := header;
      ghost var k := 0;
      while cur != null
        invariant Listed() && k <= |sets| == |entries| && cur == (if k < |sets| then sets[k] else null)
        invariant count == SizeTo(entries, k)
        decreases |sets| - k
        modifies {}
      {
        Others(k);
        NextIs(k);
        SizeStep(entries, k);
        count := count + cur.Count();
        cur := cur.next;
        k := k + 1;
      }
    }

    // ----- Taking over another uuid set --------------------------------------------------------------

    method MergeOne(cur: UuidSet) returns (added: int)
      requires Valid() && cur.Valid() && cur.Repr() !! repr
      modifies this`header, this`tail, this`sets, this`entries, this`members, this`repr, repr, members`next
      ensures Valid() && forall o :: o in repr ==> o in old(repr) || fresh(o)
      ensures forall u :: u in members ==> u in old(members) || fresh(u)
      ensures Map() == Added(old(Map()), cur.uuid, old(cur.Row().gnos)) && added == Total() - old(Total())
    {
      hide Valid, Listed, Map, Total, ToTable, Size, Added, In, Inside, Sound, Linked, Rows, Unique;
      hide SkipList.Valid;
      cur.HoldsItsList();
      Pointers();
      var d, k := Find(cur.uuid);
      if d != null {
        added := MergeInto(d, cur, k);
      } else {
        added := AppendCopy(cur);
      }
    }

    method MergeInto(d: UuidSet, cur: UuidSet, ghost k: nat) returns (added: int)
      requires Valid() && k < |sets| && d == sets[k] && d.uuid == cur.uuid && cur.Valid() && cur.Repr() !! repr
      modifies this`entries, this`repr, repr
      ensures Valid() && members == old(members) && forall o :: o in repr ==> o in old(repr) || fresh(o)
      ensures Map() == Added(old(Map()), cur.uuid, old(cur.Row().gnos)) && added == Total() - old(Total())
    {
      hide *;
      Pointers();
      Outside();
      Others(k);
      Meaning();
      ghost var e := entries;
      SameRow(Map(), e, k);
      added := MergeAt(d, cur, k);
      AddedRow(old(Map()), e, k, entries[k], old(cur.Row().gnos));
      Meaning();
      AllValid();
    }

    method AppendCopy(cur: UuidSet) returns (added: int)
      requires Valid() && cur.Valid() && cur.uuid !in ToTable(entries)
      modifies this`header, this`tail, this`sets, this`entries, this`members, this`repr, members`next
      ensures Valid() && forall o :: o in repr ==> o in old(repr) || fresh(o)
      ensures forall u :: u in members ==> u in old(members) || fresh(u)
      ensures Map() == Added(old(Map()), cur.uuid, old(cur.Row().gnos)) && added == Total() - old(Total())
      ensures entries == old(entries + [cur.Row()])
    {
      hide Valid, Listed, Map, Total, ToTable, Size, Added, In, Inside, Sound, Linked, Rows, Unique;
      hide SkipList.Valid;
      Pointers();
      Outside();
      Meaning();
      ghost var e, row := entries, cur.Row();
      NewRow(e, cur, row);
      var copy := cur.Dup();
      added := Append(copy);
      StaysIn(current, old(sets), copy);
      StaysIn(cached, old(sets), copy);
      Meaning();
      AllValid();
    }

    // ----- Taking away another uuid set ----------------------------------------------------------------

    // Take from cur what "other" has, and drop cur if nothing is left. "current" must not be in use.
    method DiffOne(prev: UuidSet?, cur: UuidSet, other: UuidSet?, ghost k: nat) returns (removed: int, left: bool)
      requires Valid() && current == null && k < |sets| && cur == sets[k] && prev == (if k > 0 then sets[k - 1] else null)
      requires other != null ==> other.Valid() && other.Repr() !! repr && other.uuid == cur.uuid
      modifies this`header, this`tail, this`cached, this`sets, this`entries, this`members, this`repr, repr, members`next
      ensures Valid() && current == null && members == old(members)
      ensures forall o :: o in repr ==> o in old(repr) || fresh(o)
      ensures Map() == Removed(old(Map()), cur.uuid, old(GnosOf(other))) && removed == old(Total()) - Total()
      ensures Remaining(if left then k + 1 else k, old(sets), old(entries), k + 1)
      ensures left ==> k < |sets| && sets[k] == cur
      ensures !left && k > 0 ==> k <= |sets| && sets[k - 1] == prev
    {
      hide *;
      Pointers();
      Others(k);
      Meaning();
      ghost var e, g := entries, GnosOf(other);
      removed := DiffInto(cur, other, k);
      ghost var x := entries[k];
      RemovedRow(e, k, x, g);
      CutRow(entries, k);
      left := Prune(prev, cur, k);
      Remains(k, left, old(sets), e, x);
      Meaning();
    }

    // From n on, the list is what s and e were from m on.
    ghost predicate Remaining(n: nat, s: seq<UuidSet>, e: seq<Entry>, m: nat)
      reads this`sets, this`entries
    {
      && n <= |sets| == |entries| && m <= |s| == |e|
      && sets[n..] == s[m..] && entries[n..] == e[m..]
    }

    lemma Remains(k: nat, left: bool, s: seq<UuidSet>, e: seq<Entry>, x: Entry)
      requires k < |s| == |e|
      requires sets == if left then s else Seqs.Cut(s, k, k + 1)
      requires entries == if left then e[k := x] else Seqs.Cut(e[k := x], k, k + 1)
      ensures Remaining(if left then k + 1 else k, s, e, k + 1)
      ensures left ==> k < |sets| && sets[k] == s[k]
      ensures !left && k > 0 ==> k <= |sets| && sets[k - 1] == s[k - 1]
    {
    }

    method DiffInto(cur: UuidSet, other: UuidSet?, ghost k: nat) returns (removed: int)
      requires Valid() && k < |sets| == |entries| && cur == sets[k]
      requires other != null ==> other.Valid() && other.Repr() !! repr && other.uuid == cur.uuid
      modifies this`entries, this`repr, repr
      ensures Valid() && members == old(members) && forall o :: o in repr ==> o in old(repr) || fresh(o)
      ensures entries == old(entries)[k := Entry(cur.uuid, old(entries)[k].gnos - old(GnosOf(other)), old(entries)[k].count - removed)]
    {
      hide *;
      Pointers();
      Others(k);
      Outside();
      removed := 0;
      NothingTaken(cur, k);
      if other != null {
        HasGnos(other);
        removed := DiffAt(cur, other, k);
        AllValid();
      }
    }

    lemma NothingTaken(cur: UuidSet, k: nat)
      requires Listed() && k < |entries| && cur.uuid == entries[k].uuid
      ensures GnosOf(null) == {}
      ensures entries == entries[k := Entry(cur.uuid, entries[k].gnos - GnosOf(null), entries[k].count - 0)]
    {
      UnchangedRow(entries, k);
    }

    method Prune(prev: UuidSet?, cur: UuidSet, ghost k: nat) returns (left: bool)
      requires Valid() && current == null && k < |sets| == |entries| && cur == sets[k]
      requires prev == (if k > 0 then sets[k - 1] else null)
      modifies this`header, this`tail, this`cached, this`sets, this`entries, this`members, this`repr, members`next
      ensures Valid() && members == old(members) && repr == old(repr) && left == (old(entries)[k].gnos != {})
      ensures sets == if left then old(sets) else Seqs.Cut(old(sets), k, k + 1)
      ensures entries == if left then old(entries) else Seqs.Cut(old(entries), k, k + 1)
      ensures !left ==> old(entries)[k].count == 0
    {
      hide *;
      Pointers();
      Others(k);
      left := cur.Count() != 0;
      if !left {
        Forget(cur, k);
        Unlink(prev, cur, k);
        Nobody(sets);
        AllValid();
      }
    }

    method Forget(cur: UuidSet, ghost k: nat)
      requires Valid() && k < |sets| && cur == sets[k]
      modifies this`cached
      ensures Valid() && Listed() && In(cached, Seqs.Cut(sets, k, k + 1))
    {
      hide *;
      Pointers();
      Outside();
      InCut(cached, sets, k);
      Nobody(sets);
      InCut(null, sets, k);
      if cached == cur { cached := null; }
      AllValid();
    }
  }

  // The gnos of a uuid set that may be missing.
  ghost function GnosOf(u: UuidSet?): set<int>
    reads if u == null then {} else {u.intervals}
  {
    if u == null then {} else u.Row().gnos
  }

  lemma HasGnos(u: UuidSet)
    ensures GnosOf(u) == u.Row().gnos
  {
  }

  lemma NewRow(e: seq<Entry>, cur: UuidSet, row: Entry)
    requires Unique(e) && cur.uuid !in ToTable(e) && row == cur.Row()
    ensures row.uuid == cur.uuid && ToTable(e + [row]) == Added(ToTable(e), cur.uuid, row.gnos)
    ensures Size(e + [row]) == Size(e) + row.count
  {
    AppendedTable(e, row);
    assert At(ToTable(e), cur.uuid) + row.gnos == row.gnos;
  }

  lemma NextIsGiven(gno: int, s: set<int>)
    requires IsNext(gno, s)
    ensures Given(gno, gno) == {gno}
  {
  }

  // A long long that is stored in an int.
  function ToInt32(n: int): (r: int)
    ensures -0x8000_0000 <= r < 0x8000_0000 && (n - r) % 0x1_0000_0000 == 0
    ensures -0x8000_0000 <= n < 0x8000_0000 ==> r == n
  {
    (n + 0x8000_0000) % 0x1_0000_0000 - 0x8000_0000
  }

  lemma InCut(u: UuidSet?, s: seq<UuidSet>, k: nat)
    requires k < |s| && In(u, s)
    ensures u != s[k] ==> In(u, Seqs.Cut(s, k, k + 1))
    ensures In(null, Seqs.Cut(s, k, k + 1))
  {
  }
}
