/** Writing GTID sets as text into a buffer, and reading them back. */
module Encoding {
  import opened GtidSets
  import opened Intervals
  import opened Numbers
  import opened SkipLists
  import opened SkipNodes
  import opened Tables
  import opened Texts
  import opened UuidSets
  import Lists = SkipListSets
  import Seqs

  const GNO_REPR_MAX_LEN := 21

  // ----- Writing ------------------------------------------------------------------------------------------

  // Writes an interval at index "at", where maxlen characters are free; -1 if a number might not fit.
  method EncodeInterval(buf: array<char>, at: nat, maxlen: nat, start: int, end: int) returns (len: int)
    requires at + maxlen <= buf.Length && ValidRange(start, end) && end < GNO_MAX
    modifies buf
    ensures buf[..at] == old(buf[..at])
    ensures len == -1 <==>
              GNO_REPR_MAX_LEN > maxlen || (start != end && |Repr(start)| + 1 + GNO_REPR_MAX_LEN > maxlen)
    ensures len >= -1 && (len >= 0 ==> at + len <= buf.Length && buf[at..at + len] == IntervalText(Interval(start, end)))
  {
    IntervalTextLength(Interval(start, end));
    hide Repr, Numeral;
    if GNO_REPR_MAX_LEN > maxlen { return -1; }
    var l := Ll2String(buf, at, GNO_REPR_MAX_LEN, start);
    if start != end {
      if l + 1 + GNO_REPR_MAX_LEN > maxlen { return -1; }
      buf[at + l] := '-';
      assert buf[at..at + l + 1] == Repr(start) + "-";
      ghost var before := buf[..];
      var m := Ll2String(buf, at + l + 1, GNO_REPR_MAX_LEN, end);
      Seqs.Adjacent(before, buf[..], at, at + l + 1, at + l + 1 + m);
      l := l + 1 + m;
    }
    len := l;
  }

  // A buffer is not part of a uuid set.
  lemma NotABuffer(buf: array<char>, u: UuidSet)
    requires u.Valid()
    ensures buf !in u.Repr() && u.intervals in u.Repr()
  {
  }

  // {uuid}: {longlong}-{longlong}* n
  function EstimatedUuidSize(u: UuidSet): nat
    reads u.intervals
  {
    |u.uuid| + u.intervals.nodeCount * 44
  }

  // There is room for one interval more than there are, for the header is counted as a node.
  lemma RoomForOne(u: UuidSet, i: nat)
    requires u.Valid() && i <= |u.intervals.ivals|
    ensures u.intervals.nodeCount == |u.intervals.ivals| + 1
    ensures |UuidText(u.uuid, u.intervals.ivals[..i])| + 44 <= EstimatedUuidSize(u)
  {
    var list := u.intervals;
    Lists.Following(list, 0);
    UuidTextLength(u.uuid, list.ivals[..i]);
  }

  // Writes a uuid set at index "at". Where maxlen is at least what was estimated there is always room.
  method EncodeUuidSet(buf: array<char>, at: nat, maxlen: nat, u: UuidSet) returns (len: nat)
    requires u.Valid() && at + maxlen <= buf.Length && EstimatedUuidSize(u) <= maxlen
    modifies buf
    ensures len <= maxlen && buf[at..at + len] == UuidText(u.uuid, u.intervals.ivals) && buf[..at] == old(buf[..at])
    ensures len + 44 <= EstimatedUuidSize(u)
  {
    hide SkipList.Valid, UuidText, IntervalText, IntervalTexts, EstimatedUuidSize, Lists.Cursor;
    NotABuffer(buf, u);
    var list := u.intervals;
    ghost var s, i := list.ivals, 0;
    RoomForOne(u, 0);
    Beginning(u);
    len := CopyUuid(buf, at, u.uuid);
    var cur := list.header.forwards[0];
    while cur != null
      invariant u.Valid() && buf !in u.Repr() && list in u.Repr() && list.ivals == s && Lists.Cursor(list, cur, i) && i <= |s|
      invariant cur == null ==> i == |s|
      invariant len + 44 <= EstimatedUuidSize(u) <= maxlen
      invariant buf[at..at + len] == UuidText(u.uuid, s[..i]) && buf[..at] == old(buf[..at])
      decreases |s| - i
    {
      len, cur := EncodeNode(buf, at, len, maxlen, u, cur, i);
      i := i + 1;
    }
    assert s[..i] == s;
  }

  // memcpy of the uuid
  method CopyUuid(buf: array<char>, at: nat, uuid: string) returns (len: nat)
    requires at + |uuid| <= buf.Length
    modifies buf
    ensures len == |uuid| && buf[at..at + len] == UuidText(uuid, []) && buf[..at] == old(buf[..at])
  {
    forall k | 0 <= k < |uuid| {
      buf[at + k] := uuid[k];
    }
    len := |uuid|;
    assert [uuid] + IntervalTexts([]) == [uuid];
  }

  lemma Beginning(u: UuidSet)
    requires u.Valid()
    ensures |u.intervals.header.forwards| > 0 && Lists.Cursor(u.intervals, u.intervals.header.forwards[0], 0)
    ensures u.intervals.header.forwards[0] == null ==> |u.intervals.ivals| == 0
    ensures u.intervals.ivals[..0] == [] && |u.uuid| + 44 <= EstimatedUuidSize(u)
  {
    Lists.Following(u.intervals, 0);
  }

  method EncodeNode(buf: array<char>, at: nat, done: nat, maxlen: nat, u: UuidSet, cur: Node, ghost i: nat)
    returns (len: nat, next: Node?)
    requires u.Valid() && buf !in u.Repr() && u.intervals in u.Repr() && Lists.Cursor(u.intervals, cur, i) && at + maxlen <= buf.Length
    requires i <= |u.intervals.ivals| && done + 44 <= EstimatedUuidSize(u) <= maxlen
    requires buf[at..at + done] == UuidText(u.uuid, u.intervals.ivals[..i])
    modifies buf
    ensures u.Valid() && Lists.Cursor(u.intervals, next, i + 1) && i + 1 <= |u.intervals.ivals|
    ensures next == null ==> i + 1 == |u.intervals.ivals|
    ensures len + 44 <= EstimatedUuidSize(u)
    ensures buf[at..at + len] == UuidText(u.uuid, u.intervals.ivals[..i + 1]) && buf[..at] == old(buf[..at])
  {
    hide SkipList.Valid, UuidText, IntervalText, IntervalTexts, EstimatedUuidSize, Lists.Cursor, ValidRange;
    var list := u.intervals;
    AtNode(u, cur, i);
    RoomForOne(u, i + 1);
    next := cur.forwards[0];
    len := EncodePart(buf, at, done, maxlen, cur.start, cur.end);
    UuidTextStep(u.uuid, list.ivals, i);
  }

  lemma AtNode(u: UuidSet, cur: Node, i: nat)
    requires u.Valid() && Lists.Cursor(u.intervals, cur, i)
    ensures i < |u.intervals.ivals| && u.intervals.ivals[i] == Interval(cur.start, cur.end)
    ensures ValidRange(cur.start, cur.end) && cur.end < GNO_MAX
    ensures |cur.forwards| > 0 && Lists.Cursor(u.intervals, cur.forwards[0], i + 1)
    ensures cur.forwards[0] == null ==> i + 1 == |u.intervals.ivals|
  {
    Lists.Following(u.intervals, i + 1);
    Lists.AtCursor(u.intervals, cur, i);
    Lists.Forward(u.intervals, cur, i);
  }

  // Writes ":" and an interval; neither runs out of room.
  method EncodePart(buf: array<char>, at: nat, done: nat, maxlen: nat, start: int, end: int) returns (len: nat)
    requires at + maxlen <= buf.Length && done + 44 <= maxlen && ValidRange(start, end) && end < GNO_MAX
    modifies buf
    ensures at + len <= buf.Length && buf[..at] == old(buf[..at])
    ensures buf[at..at + len] == old(buf[at..at + done]) + [':'] + IntervalText(Interval(start, end))
  {
    IntervalTextLength(Interval(start, end));
    hide *;
    ghost var before := buf[at..at + done];
    assert done + 1 <= maxlen;
    buf[at + done] := ':';
    assert buf[at..at + done + 1] == before + [':'];
    ghost var here := buf[..at + done + 1];
    var ret := EncodeInterval(buf, at + done + 1, maxlen - done - 1, start, end);
    assert ret >= 0;
    len := done + 1 + ret;
    assert buf[at..at + done + 1] == here[at..];
    assert buf[at..at + len] == buf[at..at + done + 1] + buf[at + done + 1..at + len];
    assert buf[..at] == here[..at];
  }

  // ----- Writing a whole set --------------------------------------------------------------------------------

  // What a list of uuid sets has to look like as text; only uuids and numbers matter.
  ghost predicate Spells(rows: seq<Row>, e: seq<Entry>) {
    |rows| == |e| && forall i :: 0 <= i < |e| ==>
      rows[i].uuid == e[i].uuid && Canonical(rows[i].ivals) && Gnos(rows[i].ivals) == e[i].gnos
  }

  lemma SpellsOnce(rows: seq<Row>, others: seq<Row>, e: seq<Entry>)
    requires Spells(rows, e) && Spells(others, e)
    ensures rows == others
  {
    forall i | 0 <= i < |e|
      ensures rows[i] == others[i]
    {
      CanonicalUnique(rows[i].ivals, others[i].ivals);
    }
  }

  // Every valid set can be spelt.
  lemma CanSpell(g: GtidSet) returns (rows: seq<Row>)
    requires g.Valid()
    ensures Spells(rows, g.entries)
  {
    g.Pointers();
    g.Outside();
    rows := [];
    while |rows| < |g.entries|
      invariant |rows| <= |g.entries| && Spells(rows, g.entries[..|rows|])
    {
      var i := |rows|;
      g.Others(i);
      rows := rows + [Row(g.sets[i].uuid, g.sets[i].intervals.ivals)];
      assert g.entries[..i + 1] == g.entries[..i] + [g.entries[i]];
    }
    assert g.entries[..|rows|] == g.entries;
  }

  function RowSize(row: Row): nat {
    |row.uuid| + (|row.ivals| + 1) * 44
  }

  // What was estimated for the uuid sets from number i on, with a comma each.
  function SizeFrom(rows: seq<Row>, i: nat): nat
    requires i <= |rows|
    decreases |rows| - i
  {
    if i == |rows| then 0 else RowSize(rows[i]) + 1 + SizeFrom(rows, i + 1)
  }

  // What member number k is, as text.
  lemma AtMember(g: GtidSet, cur: UuidSet, k: nat, rows: seq<Row>)
    requires g.Listed() && Spells(rows, g.entries) && k < |g.sets| && cur == g.sets[k]
    ensures |rows| == |g.sets| && cur.Valid() && cur.uuid == rows[k].uuid && cur.intervals.ivals == rows[k].ivals
    ensures EstimatedUuidSize(cur) == RowSize(rows[k]) && (cur.Count() == 0 <==> rows[k].ivals == [])
    ensures cur.Repr() <= g.repr
  {
    g.Outside();
    g.Others(k);
    CanonicalUnique(cur.intervals.ivals, rows[k].ivals);
    RoomForOne(cur, 0);
    cur.intervals.CountIsExact();
    EmptyGnos(rows[k].ivals);
  }

  lemma EmptyGnos(s: seq<Interval>)
    requires Canonical(s)
    ensures |Gnos(s)| == 0 <==> s == []
  {
    if s != [] {
      assert s[0].start in Range(s[0].start, s[0].end);
      assert s[0].start in Gnos(s);
    }
  }

  method EstimatedSetSize(g: GtidSet, ghost rows: seq<Row>) returns (size: nat)
    requires g.Valid() && Spells(rows, g.entries)
    ensures size == SizeFrom(rows, 0) + 1
  {
    hide *;
    g.Pointers();
    g.First();
    g.Outside();
    SpellLength(rows, g.entries);
    size := 1;
    var cur := g.header;
    ghost var k := 0;
    while cur != null
      invariant g.Listed() && k <= |g.sets| == |rows| && cur == (if k < |g.sets| then g.sets[k] else null)
      invariant size + SizeFrom(rows, k) == SizeFrom(rows, 0) + 1
      decreases |g.sets| - k
    {
      AtMember(g, cur, k, rows);
      SizeStep(rows, k);
      g.NextIs(k);
      size := size + EstimatedUuidSize(cur) + 1;
      cur := cur.next;
      k := k + 1;
    }
    SizeStep(rows, k);
  }

  lemma SpellLength(rows: seq<Row>, e: seq<Entry>)
    requires Spells(rows, e)
    ensures |rows| == |e|
  {
  }

  lemma SizeStep(rows: seq<Row>, k: nat)
    requires k <= |rows|
    ensures SizeFrom(rows, k) == if k == |rows| then 0 else RowSize(rows[k]) + 1 + SizeFrom(rows, k + 1)
  {
  }

  // Writes the uuid sets that are not empty. Where maxlen is what was estimated there is always room.
  method EncodeSet(buf: array<char>, maxlen: nat, g: GtidSet, ghost rows: seq<Row>) returns (len: nat)
    requires g.Valid() && Spells(rows, g.entries) && buf !in g.repr
    requires maxlen <= buf.Length && SizeFrom(rows, 0) + 1 <= maxlen
    modifies buf
    ensures g.Valid() && len <= maxlen && buf[..len] == SetText(rows)
  {
    hide *;
    g.Pointers();
    g.First();
    g.Outside();
    SpellLength(rows, g.entries);
    NothingYet(rows);
    len := 0;
    var first, cur := true, g.header;
    ghost var k, e := 0, g.entries;
    while cur != null
      invariant g.Valid() && g.Listed() && g.entries == e
      invariant k <= |g.sets| == |rows| && cur == (if k < |g.sets| then g.sets[k] else null)
      invariant len + SizeFrom(rows, k) + 1 <= maxlen && buf[..len] == SetText(rows[..k])
      invariant first <==> RowTexts(rows[..k]) == []
      decreases |g.sets| - k
    {
      AtMember(g, cur, k, rows);
      len, first := EncodeMember(buf, len, maxlen, g, cur, first, k, rows);
      g.NextIs(k);
      cur := cur.next;
      k := k + 1;
    }
    assert rows[..k] == rows;
  }

  lemma NothingYet(rows: seq<Row>)
    ensures RowTexts(rows[..0]) == [] && SetText(rows[..0]) == ""
  {
  }

  method EncodeMember(buf: array<char>, done: nat, maxlen: nat, g: GtidSet, cur: UuidSet, wasFirst: bool,
                      ghost k: nat, ghost rows: seq<Row>) returns (len: nat, first: bool)
    requires g.Valid() && g.Listed() && Spells(rows, g.entries) && buf !in g.repr && maxlen <= buf.Length
    requires k < |g.sets| == |rows| && cur == g.sets[k]
    requires done + SizeFrom(rows, k) + 1 <= maxlen && buf[..done] == SetText(rows[..k])
    requires wasFirst <==> RowTexts(rows[..k]) == []
    modifies buf
    ensures g.Valid() && g.Listed()
    ensures len + SizeFrom(rows, k + 1) + 1 <= maxlen && buf[..len] == SetText(rows[..k + 1])
    ensures first <==> RowTexts(rows[..k + 1]) == []
  {
    hide *;
    AtMember(g, cur, k, rows);
    SizeStep(rows, k);
    TextStep(rows, k);
    len, first := done, wasFirst;
    if cur.Count() != 0 {
      len := EncodeNonEmpty(buf, done, maxlen, cur, first);
      first := false;
    }
  }

  lemma TextStep(rows: seq<Row>, k: nat)
    requires k < |rows|
    ensures var row := rows[k]; var text := UuidText(row.uuid, row.ivals); var before := RowTexts(rows[..k]);
            && (row.ivals == [] ==> RowTexts(rows[..k + 1]) == before && SetText(rows[..k + 1]) == SetText(rows[..k]))
            && (row.ivals != [] ==>
                && RowTexts(rows[..k + 1]) != []
                && SetText(rows[..k + 1]) == if before == [] then text else SetText(rows[..k]) + [','] + text)
    ensures RowTexts(rows[..k]) == [] ==> SetText(rows[..k]) == ""
  {
    assert rows[..k + 1][..k] == rows[..k];
    var before := RowTexts(rows[..k]);
    assert (before + [UuidText(rows[k].uuid, rows[k].ivals)])[..|before|] == before;
  }

  method EncodeNonEmpty(buf: array<char>, done: nat, maxlen: nat, cur: UuidSet, first: bool) returns (len: nat)
    requires cur.Valid() && maxlen <= buf.Length && done + EstimatedUuidSize(cur) + 2 <= maxlen
    modifies buf
    ensures len <= done + EstimatedUuidSize(cur) + 1
    ensures buf[..len] == old(buf[..done]) + (if first then "" else ",") + UuidText(cur.uuid, cur.intervals.ivals)
  {
    hide *;
    NotABuffer(buf, cur);
    ghost var before := buf[..done];
    len := done;
    if !first {
      assert len + 1 <= maxlen;
      buf[len] := ',';
      len := len + 1;
    }
    ghost var here := buf[..len];
    assert here == before + (if first then "" else ",");
    var ret := EncodeUuidSet(buf, len, maxlen - len, cur);
    assert buf[..len + ret] == buf[..len] + buf[len..len + ret];
    len := len + ret;
  }

  // gtidSetDump
  method Dump(g: GtidSet, ghost rows: seq<Row>) returns (text: string)
    requires g.Valid() && Spells(rows, g.entries)
    ensures text == SetText(rows)
  {
    hide *;
    var size := EstimatedSetSize(g, rows);
    var buf := new char[size];
    var len := EncodeSet(buf, size, g, rows);
    text := buf[..len];
  }
}
