/** A GTID set as a table from uuids to sets of gnos, and the set of ids (uuid, gno) that it stands for. */
module Tables {
  import opened Intervals
  import Seqs

  type Uuid = string
  type Table = map<Uuid, set<int>>
  datatype Id = Id(uuid: Uuid, gno: int)

  // One uuid set of the linked list: its gnos and its running count of them.
  datatype Entry = Entry(uuid: Uuid, gnos: set<int>, count: int)

  ghost function At(t: Table, uuid: Uuid): set<int> {
    if uuid in t then t[uuid] else {}
  }

  ghost function Ids(t: Table): set<Id> {
    set u, g | u in t && g in t[u] :: Id(u, g)
  }

  // ----- What the operations of gtidSet do to the table ---------------------------------------

  ghost function Added(t: Table, uuid: Uuid, gnos: set<int>): Table {
    t[uuid := At(t, uuid) + gnos]
  }

  // A uuid that is left without gnos leaves the table.
  ghost function Removed(t: Table, uuid: Uuid, gnos: set<int>): Table {
    if uuid !in t then t
    else if t[uuid] <= gnos then t - {uuid}
    else t[uuid := t[uuid] - gnos]
  }

  ghost function Union(a: Table, b: Table): Table {
    map u | u in a.Keys + b.Keys :: At(a, u) + At(b, u)
  }

  ghost function Difference(a: Table, b: Table): Table {
    map u | u in a && !(a[u] <= At(b, u)) :: a[u] - At(b, u)
  }

  lemma AddedIds(t: Table, uuid: Uuid, gnos: set<int>)
    ensures Ids(Added(t, uuid, gnos)) == Ids(t) + set g | g in gnos :: Id(uuid, g)
  {
  }

  lemma RemovedIds(t: Table, uuid: Uuid, gnos: set<int>)
    ensures Ids(Removed(t, uuid, gnos)) == Ids(t) - set g | g in gnos :: Id(uuid, g)
  {
  }

  lemma UnionIds(a: Table, b: Table)
    ensures Ids(Union(a, b)) == Ids(a) + Ids(b)
  {
  }

  lemma DifferenceIds(a: Table, b: Table)
    ensures Ids(Difference(a, b)) == Ids(a) - Ids(b)
  {
  }

  // ----- The list of uuid sets as a table -------------------------------------------------------

  predicate Unlike(e: seq<Entry>, i: nat, j: nat)
    requires i < |e| && j < |e|
  {
    e[i].uuid != e[j].uuid
  }

  ghost predicate Unique(e: seq<Entry>) {
    forall i, j :: 0 <= i < j < |e| ==> Unlike(e, i, j)
  }

  ghost function ToTable(e: seq<Entry>): Table {
    if e == [] then map[] else ToTable(e[..|e| - 1])[e[|e| - 1].uuid := e[|e| - 1].gnos]
  }

  ghost function Size(e: seq<Entry>): int {
    if e == [] then 0 else Size(e[..|e| - 1]) + e[|e| - 1].count
  }

  ghost function SizeTo(e: seq<Entry>, k: nat): int
    requires k <= |e|
  {
    Size(e[..k])
  }

  lemma SizeStep(e: seq<Entry>, k: nat)
    requires k < |e|
    ensures SizeTo(e, k + 1) == SizeTo(e, k) + e[k].count
  {
    assert e[..k + 1][..k] == e[..k];
  }

  lemma SizeEnds(e: seq<Entry>)
    ensures SizeTo(e, 0) == 0 && SizeTo(e, |e|) == Size(e)
  {
    assert e[..|e|] == e;
  }

  lemma {:induction false} TableKeys(e: seq<Entry>)
    ensures forall i :: 0 <= i < |e| ==> e[i].uuid in ToTable(e)
    ensures forall u :: u in ToTable(e) ==> exists i :: 0 <= i < |e| && e[i].uuid == u
  {
    if e != [] {
      var p := e[..|e| - 1];
      TableKeys(p);
      forall i | 0 <= i < |e| ensures e[i].uuid in ToTable(e) {
        assert i < |p| ==> e[i] == p[i];
      }
      forall u | u in ToTable(e) ensures exists i :: 0 <= i < |e| && e[i].uuid == u {
        if u in ToTable(p) {
          var i :| 0 <= i < |p| && p[i].uuid == u;
          assert e[i].uuid == u;
        }
      }
    }
  }

  lemma {:induction false} TableAt(e: seq<Entry>, i: nat)
    requires Unique(e) && i < |e|
    ensures e[i].uuid in ToTable(e) && ToTable(e)[e[i].uuid] == e[i].gnos
  {
    var p := e[..|e| - 1];
    if i < |p| {
      assert Unlike(e, i, |p|);
      assert forall j, k :: 0 <= j < k < |p| ==> Unlike(e, j, k) ==> Unlike(p, j, k);
      TableAt(p, i);
    }
  }

  // The table is determined by where each uuid is.
  lemma TableIs(e: seq<Entry>, t: Table)
    requires Unique(e)
    requires forall i :: 0 <= i < |e| ==> e[i].uuid in t && t[e[i].uuid] == e[i].gnos
    requires forall u :: u in t ==> exists i :: 0 <= i < |e| && e[i].uuid == u
    ensures ToTable(e) == t
  {
    hide *;
    TableKeys(e);
    forall u | u in t ensures u in ToTable(e) && ToTable(e)[u] == t[u] {
      var i :| 0 <= i < |e| && e[i].uuid == u;
      TableAt(e, i);
    }
    forall u | u in ToTable(e) ensures u in t {
      var i :| 0 <= i < |e| && e[i].uuid == u;
    }
  }

  lemma {:induction false} UpdatedSize(e: seq<Entry>, k: nat, x: Entry)
    requires k < |e|
    ensures Size(e[k := x]) == Size(e) - e[k].count + x.count
  {
    if k < |e| - 1 {
      UpdatedSize(e[..|e| - 1], k, x);
      assert e[k := x][..|e| - 1] == e[..|e| - 1][k := x];
    } else {
      assert e[k := x][..k] == e[..k];
    }
  }

  lemma {:induction false} DroppedSize(e: seq<Entry>, k: nat)
    requires k < |e|
    ensures Size(e[..k] + e[k + 1..]) == Size(e) - e[k].count
  {
    var f := e[..k] + e[k + 1..];
    if k < |e| - 1 {
      var p := e[..|e| - 1];
      DroppedSize(p, k);
      assert f[..|f| - 1] == p[..k] + p[k + 1..];
    } else {
      assert f == e[..k];
    }
  }

  lemma UpdatedTable(e: seq<Entry>, k: nat, x: Entry)
    requires Unique(e) && k < |e| && x.uuid == e[k].uuid
    ensures Unique(e[k := x]) && ToTable(e[k := x]) == ToTable(e)[x.uuid := x.gnos]
  {
    var f := e[k := x];
    assert forall i, j :: 0 <= i < j < |e| ==> Unlike(e, i, j) ==> Unlike(f, i, j);
    var t := ToTable(e)[x.uuid := x.gnos];
    TableKeys(e);
    forall i | 0 <= i < |f| ensures f[i].uuid in t && t[f[i].uuid] == f[i].gnos {
      TableAt(e, i);
      assert i != k ==> Unlike(e, if i < k then i else k, if i < k then k else i);
    }
    forall u | u in t ensures exists i :: 0 <= i < |f| && f[i].uuid == u {
      assert u == x.uuid ==> f[k].uuid == u;
      if u != x.uuid {
        var i :| 0 <= i < |e| && e[i].uuid == u;
        assert f[i].uuid == u;
      }
    }
    TableIs(f, t);
  }

  // One row changes: the table and the sum of the counters.
  lemma ChangedRow(e: seq<Entry>, k: nat, x: Entry)
    requires Unique(e) && k < |e| && x.uuid == e[k].uuid
    ensures Unique(e[k := x]) && ToTable(e[k := x]) == ToTable(e)[x.uuid := x.gnos]
    ensures Size(e[k := x]) == Size(e) - e[k].count + x.count
    ensures x.uuid in ToTable(e) && ToTable(e)[x.uuid] == e[k].gnos
  {
    UpdatedTable(e, k, x);
    UpdatedSize(e, k, x);
    TableAt(e, k);
  }

  lemma AddedNothing(t: Table, uuid: Uuid)
    ensures Added(t, uuid, {}) == if uuid in t then t else t[uuid := {}]
  {
    assert At(t, uuid) + {} == At(t, uuid);
  }

  // gnos added to the row of a uuid that is there already, or was put there empty.
  lemma AddedRow(t: Table, e: seq<Entry>, k: nat, x: Entry, gnos: set<int>)
    requires Unique(e) && k < |e| && ToTable(e) == Added(t, e[k].uuid, {})
    requires x.uuid == e[k].uuid && x.gnos == e[k].gnos + gnos
    ensures Unique(e[k := x]) && ToTable(e[k := x]) == Added(t, x.uuid, gnos)
    ensures Size(e[k := x]) == Size(e) - e[k].count + x.count
  {
    ChangedRow(e, k, x);
    hide ToTable;
    assert At(t, x.uuid) + {} == At(t, x.uuid);
  }

  lemma UnchangedRow(e: seq<Entry>, k: nat)
    requires k < |e|
    ensures e[k := Entry(e[k].uuid, e[k].gnos - {}, e[k].count)] == e
  {
    assert e[k].gnos - {} == e[k].gnos;
  }

  lemma SameRow(t: Table, e: seq<Entry>, k: nat)
    requires Unique(e) && k < |e| && ToTable(e) == t
    ensures t == Added(t, e[k].uuid, {}) && e[k].gnos == At(t, e[k].uuid) && e[k].uuid in t
  {
    TableAt(e, k);
    AddedNothing(t, e[k].uuid);
  }

  lemma RowOf(t: Table, e: seq<Entry>, k: nat)
    requires Unique(e) && k < |e| && ToTable(e) == Added(t, e[k].uuid, {})
    ensures e[k].gnos == At(t, e[k].uuid)
  {
    TableAt(e, k);
  }

  lemma NextRow(t: Table, e: seq<Entry>, k: nat, x: Entry, gno: int, update: bool)
    requires Unique(e) && k < |e| && ToTable(e) == Added(t, e[k].uuid, {}) && (!update ==> e[k].uuid in t)
    requires x == if update then Entry(e[k].uuid, e[k].gnos + {gno}, e[k].count + 1) else e[k]
    ensures !update ==> e[k := x] == e
    ensures ToTable(e[k := x]) == if update then Added(t, x.uuid, {gno}) else t
    ensures Size(e[k := x]) == Size(e) + (if update then 1 else 0)
  {
    if update {
      AddedRow(t, e, k, x, {gno});
    } else {
      assert e[k := x] == e;
      AddedNothing(t, e[k].uuid);
    }
  }

  lemma AppendedTable(e: seq<Entry>, x: Entry)
    requires Unique(e) && x.uuid !in ToTable(e)
    ensures Unique(e + [x]) && ToTable(e + [x]) == ToTable(e)[x.uuid := x.gnos] && Size(e + [x]) == Size(e) + x.count
  {
    var f := e + [x];
    assert f[..|e|] == e;
    TableKeys(e);
    forall i, j | 0 <= i < j < |f| ensures Unlike(f, i, j) {
      assert j < |e| ==> Unlike(e, i, j);
    }
  }

  lemma DroppedTable(e: seq<Entry>, k: nat, f: seq<Entry>)
    requires Unique(e) && k < |e| && f == e[..k] + e[k + 1..]
    ensures Unique(f) && ToTable(f) == ToTable(e) - {e[k].uuid}
  {
    hide *;
    DroppedUnique(e, k, f);
    var t := ToTable(e) - {e[k].uuid};
    forall i | 0 <= i < |f| ensures f[i].uuid in t && t[f[i].uuid] == f[i].gnos {
      KeptEntry(e, k, f, i);
    }
    forall u | u in t ensures exists i :: 0 <= i < |f| && f[i].uuid == u {
      KeptKey(e, k, f, u);
    }
    TableIs(f, t);
  }

  lemma DroppedUnique(e: seq<Entry>, k: nat, f: seq<Entry>)
    requires Unique(e) && k < |e| && f == e[..k] + e[k + 1..]
    ensures Unique(f)
  {
    forall i, j | 0 <= i < j < |f| ensures Unlike(f, i, j) {
      assert Unlike(e, if i < k then i else i + 1, if j < k then j else j + 1);
    }
  }

  lemma KeptEntry(e: seq<Entry>, k: nat, f: seq<Entry>, i: nat)
    requires Unique(e) && k < |e| && f == e[..k] + e[k + 1..] && i < |f|
    ensures f[i].uuid in ToTable(e) && f[i].uuid != e[k].uuid && ToTable(e)[f[i].uuid] == f[i].gnos
  {
    hide *;
    var o := if i < k then i else i + 1;
    assert f[i] == e[o];
    TableAt(e, o);
    UniqueAt(e, o, k);
  }

  lemma UniqueAt(e: seq<Entry>, i: nat, j: nat)
    requires Unique(e) && i < |e| && j < |e| && i != j
    ensures e[i].uuid != e[j].uuid
  {
    assert Unlike(e, if i < j then i else j, if i < j then j else i);
  }

  lemma KeptKey(e: seq<Entry>, k: nat, f: seq<Entry>, u: Uuid)
    requires k < |e| && f == e[..k] + e[k + 1..] && u in ToTable(e) && u != e[k].uuid
    ensures exists i :: 0 <= i < |f| && f[i].uuid == u
  {
    hide ToTable;
    TableKeys(e);
    var i :| 0 <= i < |e| && e[i].uuid == u;
    assert f[if i < k then i else i - 1].uuid == u;
  }

  lemma RemovedRow(e: seq<Entry>, k: nat, x: Entry, gnos: set<int>)
    requires Unique(e) && k < |e| && x.uuid == e[k].uuid && x.gnos == e[k].gnos - gnos
    ensures Unique(e[k := x]) && Size(e[k := x]) == Size(e) - e[k].count + x.count
    ensures x.gnos != {} ==> ToTable(e[k := x]) == Removed(ToTable(e), x.uuid, gnos)
    ensures x.gnos == {} ==> ToTable(e[k := x]) - {x.uuid} == Removed(ToTable(e), x.uuid, gnos)
  {
    ChangedRow(e, k, x);
    assert forall g :: g in e[k].gnos ==> g in gnos || g in x.gnos;
  }

  lemma CutRow(e: seq<Entry>, k: nat)
    requires Unique(e) && k < |e|
    ensures Unique(Seqs.Cut(e, k, k + 1)) && ToTable(Seqs.Cut(e, k, k + 1)) == ToTable(e) - {e[k].uuid}
    ensures Size(Seqs.Cut(e, k, k + 1)) == Size(e) - e[k].count
  {
    DroppedTable(e, k, Seqs.Cut(e, k, k + 1));
    DroppedSize(e, k);
  }

  // The sum of the counters is the number of ids.
  lemma {:induction false} SizeIsCount(e: seq<Entry>)
    requires Unique(e) && forall i :: 0 <= i < |e| ==> e[i].count == |e[i].gnos|
    ensures Size(e) == |Ids(ToTable(e))|
  {
    if e != [] {
      var p, x := e[..|e| - 1], e[|e| - 1];
      assert forall i, j :: 0 <= i < j < |p| ==> Unlike(e, i, j) ==> Unlike(p, i, j);
      SizeIsCount(p);
      TableKeys(p);
      assert forall i :: 0 <= i < |p| ==> Unlike(e, i, |p|) ==> p[i].uuid != x.uuid;
      hide Ids;
      OneMore(ToTable(p), x.uuid, x.gnos);
    }
  }

  lemma OneMore(t: Table, uuid: Uuid, gnos: set<int>)
    requires uuid !in t
    ensures |Ids(t[uuid := gnos])| == |Ids(t)| + |gnos|
  {
    var own := set g | g in gnos :: Id(uuid, g);
    assert Ids(t[uuid := gnos]) == Ids(t) + own;
    assert Ids(t) !! own;
    Tagged(uuid, gnos);
  }

  lemma Pick<T>(s: set<T>) returns (x: T)
    requires s != {}
    ensures x in s
  {
    x :| x in s;
  }

  lemma {:induction false} Tagged(uuid: Uuid, gnos: set<int>)
    ensures |set g | g in gnos :: Id(uuid, g)| == |gnos|
  {
    if gnos != {} {
      var h := Pick(gnos);
      Tagged(uuid, gnos - {h});
      assert (set g | g in gnos :: Id(uuid, g)) == (set g | g in gnos - {h} :: Id(uuid, g)) + {Id(uuid, h)};
    } else {
      assert (set g | g in gnos :: Id(uuid, g)) == {};
    }
  }

  // ----- Whole tables, row by row ------------------------------------------------------------------

  // t with the first i rows of e added.
  ghost function Summed(t: Table, e: seq<Entry>, i: nat): Table
    requires i <= |e|
  {
    if i == 0 then t else Added(Summed(t, e, i - 1), e[i - 1].uuid, e[i - 1].gnos)
  }

  lemma {:induction false} SummedIsUnion(t: Table, e: seq<Entry>)
    requires Unique(e)
    ensures Summed(t, e, 0) == t && Summed(t, e, |e|) == Union(t, ToTable(e))
  {
    if e == [] {
      UnionNothing(t);
    } else {
      var p, x := e[..|e| - 1], e[|e| - 1];
      LastIsUnlike(e);
      hide Union, Added, Unique;
      SummedIsUnion(t, p);
      SummedPrefix(t, e, |p|);
      UnionAdded(t, ToTable(p), x.uuid, x.gnos);
    }
  }

  lemma LastIsUnlike(e: seq<Entry>)
    requires Unique(e) && e != []
    ensures Unique(e[..|e| - 1]) && e[|e| - 1].uuid !in ToTable(e[..|e| - 1])
  {
    hide ToTable;
    var p := e[..|e| - 1];
    assert forall i, j :: 0 <= i < j < |p| ==> Unlike(e, i, j) ==> Unlike(p, i, j);
    NextIsNew(e, |p|);
  }

  lemma UnionNothing(t: Table)
    ensures Union(t, map[]) == t
  {
    assert forall u :: u in t ==> At(t, u) + At(map[], u) == t[u];
  }

  lemma UnionAdded(t: Table, b: Table, uuid: Uuid, gnos: set<int>)
    requires uuid !in b
    ensures Added(Union(t, b), uuid, gnos) == Union(t, b[uuid := gnos])
  {
    var r, s := Added(Union(t, b), uuid, gnos), Union(t, b[uuid := gnos]);
    assert r.Keys == s.Keys;
    forall u | u in r ensures r[u] == s[u] {
      UnionAddedAt(t, b, uuid, gnos, u);
    }
  }

  lemma UnionAddedAt(t: Table, b: Table, uuid: Uuid, gnos: set<int>, u: Uuid)
    requires uuid !in b && u in Added(Union(t, b), uuid, gnos)
    ensures Added(Union(t, b), uuid, gnos)[u] == Union(t, b[uuid := gnos])[u]
  {
    assert At(t, uuid) + {} == At(t, uuid);
  }

  lemma {:induction false} SummedPrefix(t: Table, e: seq<Entry>, i: nat)
    requires i < |e|
    ensures Summed(t, e, i) == Summed(t, e[..|e| - 1], i)
  {
    if i > 0 { SummedPrefix(t, e, i - 1); }
  }

  // t without what b holds for the first i rows of e.
  ghost function Reduced(t: Table, e: seq<Entry>, b: Table, i: nat): Table
    requires i <= |e|
  {
    if i == 0 then t else Removed(Reduced(t, e, b, i - 1), e[i - 1].uuid, At(b, e[i - 1].uuid))
  }

  lemma {:induction false} ReducedAt(e: seq<Entry>, b: Table, i: nat, j: nat)
    requires Unique(e) && i <= |e| && j < |e|
    ensures var r, u := Reduced(ToTable(e), e, b, i), e[j].uuid;
            if i <= j then u in r && r[u] == e[j].gnos
            else if e[j].gnos <= At(b, u) then u !in r
            else u in r && r[u] == e[j].gnos - At(b, u)
  {
    if i == 0 {
      TableAt(e, j);
    } else {
      ReducedAt(e, b, i - 1, j);
      assert i - 1 != j ==> Unlike(e, if i - 1 < j then i - 1 else j, if i - 1 < j then j else i - 1);
    }
  }

  lemma {:induction false} ReducedKeys(e: seq<Entry>, b: Table, i: nat)
    requires i <= |e|
    ensures Reduced(ToTable(e), e, b, i).Keys <= ToTable(e).Keys
  {
    if i > 0 { ReducedKeys(e, b, i - 1); }
  }

  lemma ReducedIsDifference(e: seq<Entry>, b: Table)
    requires Unique(e)
    ensures Reduced(ToTable(e), e, b, |e|) == Difference(ToTable(e), b)
  {
    var r, t := Reduced(ToTable(e), e, b, |e|), ToTable(e);
    ReducedKeys(e, b, |e|);
    TableKeys(e);
    forall u | u in t
      ensures u in r <==> !(t[u] <= At(b, u))
      ensures u in r ==> r[u] == t[u] - At(b, u)
    {
      var j :| 0 <= j < |e| && e[j].uuid == u;
      TableAt(e, j);
      ReducedAt(e, b, |e|, j);
    }
  }

  lemma NextIsNew(e: seq<Entry>, i: nat)
    requires Unique(e) && i < |e|
    ensures e[i].uuid !in ToTable(e[..i]) && e[..i + 1] == e[..i] + [e[i]]
  {
    TableKeys(e[..i]);
    assert forall j :: 0 <= j < i ==> Unlike(e, j, i) ==> e[..i][j].uuid != e[i].uuid;
  }

  // Two sets are the same if neither has an id that the other has not.
  lemma EqualIds(a: Table, b: Table)
    ensures |Ids(Difference(a, b))| == 0 && |Ids(Difference(b, a))| == 0 <==> Ids(a) == Ids(b)
  {
    DifferenceIds(a, b);
    DifferenceIds(b, a);
    EqualSets(Ids(a), Ids(b));
  }

  lemma EqualSets<T>(a: set<T>, b: set<T>)
    ensures |a - b| == 0 && |b - a| == 0 <==> a == b
  {
    if |a - b| == 0 && |b - a| == 0 {
      assert a - b == {} && b - a == {};
      assert forall x :: x in a ==> x in b || x in a - b;
      assert forall x :: x in b ==> x in a || x in b - a;
    }
  }
}
