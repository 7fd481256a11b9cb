/** A set that is written as text and read back is the same set, without its empty uuid sets. */
module RoundTrips {
  import opened Decoding
  import opened Encoding
  import opened GtidSets
  import opened Intervals
  import opened Numbers
  import opened Tables
  import opened Texts

  // ----- What the rows stand for ----------------------------------------------------------------------------

  ghost function RowIds(rows: seq<Row>): set<Id> {
    if rows == [] then {} else
      var n := |rows| - 1;
      RowIds(rows[..n]) + set g | g in Gnos(rows[n].ivals) :: Id(rows[n].uuid, g)
  }

  lemma {:induction false} SpeltIds(rows: seq<Row>, e: seq<Entry>)
    requires Spells(rows, e) && Unique(e)
    ensures Ids(ToTable(e)) == RowIds(rows)
  {
    if e != [] {
      var n := |e| - 1;
      assert forall i, j :: 0 <= i < j < n ==> Unlike(e, i, j) ==> Unlike(e[..n], i, j);
      SpeltIds(rows[..n], e[..n]);
      LastIsUnlike(e);
      AppendedIds(ToTable(e[..n]), e[n]);
    }
  }

  lemma AppendedIds(t: Table, x: Entry)
    requires x.uuid !in t
    ensures Ids(t[x.uuid := x.gnos]) == Ids(t) + set g | g in x.gnos :: Id(x.uuid, g)
  {
  }

  lemma {:induction false} FilledIds(rows: seq<Row>)
    ensures RowIds(Filled(rows)) == RowIds(rows)
  {
    if rows != [] {
      var n := |rows| - 1;
      FilledIds(rows[..n]);
      var f := Filled(rows[..n]);
      if rows[n].ivals != [] {
        assert (f + [rows[n]])[..|f|] == f;
      }
    }
  }

  // ----- Its text can be read ---------------------------------------------------------------------------------

  predicate OtherRow(rows: seq<Row>, i: nat, j: nat)
    requires i < |rows| && j < |rows|
  {
    rows[i].uuid != rows[j].uuid
  }

  ghost predicate RowsDiffer(rows: seq<Row>) {
    forall i, j :: 0 <= i < j < |rows| ==> OtherRow(rows, i, j)
  }

  lemma {:induction false} FilledRows(rows: seq<Row>)
    requires RowsDiffer(rows) && PlainRows(rows)
    ensures RowsDiffer(Filled(rows)) && PlainRows(Filled(rows))
    ensures forall i :: 0 <= i < |Filled(rows)| ==> Filled(rows)[i].ivals != [] && Filled(rows)[i] in rows
  {
    if rows != [] {
      var n := |rows| - 1;
      var f := Filled(rows[..n]);
      assert forall i, j :: 0 <= i < j < n ==> OtherRow(rows, i, j) ==> OtherRow(rows[..n], i, j);
      FilledRows(rows[..n]);
      if rows[n].ivals != [] {
        forall i | 0 <= i < |f|
          ensures f[i].uuid != rows[n].uuid
        {
          var k :| 0 <= k < n && rows[k] == f[i];
          assert OtherRow(rows, k, n);
        }
        forall i, j | 0 <= i < j < |f| + 1
          ensures OtherRow(f + [rows[n]], i, j)
        {
          assert j < |f| ==> OtherRow(f, i, j);
        }
      }
    }
  }

  // The fields of a uuid set's text are bounded, for they read as its intervals only.
  lemma TextIsBounded(row: Row)
    requires Plain(row.uuid) && Canonical(row.ivals)
    ensures Bounded(Fields(UuidText(row.uuid, row.ivals), ':')[1..])
  {
    UuidTextFields(row.uuid, row.ivals);
    var p := Fields(UuidText(row.uuid, row.ivals), ':')[1..];
    assert p == IntervalTexts(row.ivals);
    forall i, x | 0 <= i < |p| && Reads(p[i], x)
      ensures x.end < GNO_MAX
    {
      IntervalTextReads(row.ivals[i], x);
    }
  }

  lemma {:induction false} FilledTextIs(rows: seq<Row>)
    ensures |RowTexts(rows)| == |Filled(rows)|
    ensures forall i :: 0 <= i < |Filled(rows)| ==> RowTexts(rows)[i] == UuidText(Filled(rows)[i].uuid, Filled(rows)[i].ivals)
  {
    if rows != [] {
      FilledTextIs(rows[..|rows| - 1]);
    }
  }

  // The text of a set with plain, distinct uuids meets what reading demands, and is read without an error.
  lemma TextIsReadable(rows: seq<Row>)
    requires PlainRows(rows) && RowsDiffer(rows)
    ensures SetText(rows) == "" <==> Filled(rows) == []
    ensures Filled(rows) != [] ==>
              (var p := Fields(SetText(rows), ',');
              p == RowTexts(rows) && AllBounded(p) && UuidsDiffer(p) && AllGood(p))
  {
    FilledRows(rows);
    FilledTexts(rows);
    FilledTextIs(rows);
    SetTextFields(rows);
    if Filled(rows) != [] {
      var p := RowTexts(rows);
      FieldsOfJoin(p, ',');
      forall i | 0 <= i < |p|
        ensures Bounded(Fields(p[i], ':')[1..])
      {
        TextIsBounded(Filled(rows)[i]);
      }
      forall i, j | 0 <= i < j < |p|
        ensures OtherUuid(p, i, j)
      {
        assert OtherRow(Filled(rows), i, j);
      }
    }
  }

  // What is read is what the text spells.
  lemma ReadIsSpelt(rows: seq<Row>, f: seq<Entry>)
    requires PlainRows(rows) && RowsDiffer(rows)
    requires Decoded(f, if SetText(rows) == "" then [] else Fields(SetText(rows), ','))
    ensures Spells(Filled(rows), f)
  {
    FilledRows(rows);
    SetTextFields(rows);
  }

  predicate PlainEntries(e: seq<Entry>) {
    forall i :: 0 <= i < |e| ==> Plain(e[i].uuid)
  }

  lemma SpeltRows(rows: seq<Row>, e: seq<Entry>)
    requires Spells(rows, e) && Unique(e) && PlainEntries(e)
    ensures PlainRows(rows) && RowsDiffer(rows)
  {
    forall i, j | 0 <= i < j < |rows|
      ensures OtherRow(rows, i, j)
    {
      assert Unlike(e, i, j);
    }
  }

  // What is read back holds the same ids, and no uuid set without any.
  lemma RoundTrip(rows: seq<Row>, e: seq<Entry>, f: seq<Entry>)
    requires Spells(rows, e) && Unique(e) && Unique(f) && PlainEntries(e)
    requires Decoded(f, if SetText(rows) == "" then [] else Fields(SetText(rows), ','))
    ensures Ids(ToTable(f)) == Ids(ToTable(e))
    ensures forall i :: 0 <= i < |f| ==> f[i].gnos != {}
  {
    SpeltRows(rows, e);
    ReadIsSpelt(rows, f);
    FilledRows(rows);
    SpeltIds(rows, e);
    SpeltIds(Filled(rows), f);
    FilledIds(rows);
    forall i | 0 <= i < |f|
      ensures f[i].gnos != {}
    {
      EmptyGnos(Filled(rows)[i].ivals);
    }
  }

  // A set is sent: dumped into a buffer of the estimated size on one side, and read on the other.
  method Send(g: GtidSet) returns (copy: GtidSet)
    requires g.Valid() && PlainEntries(g.entries)
    ensures fresh(copy) && copy.Valid() && Ids(copy.Map()) == Ids(g.Map())
    ensures forall i :: 0 <= i < |copy.entries| ==> copy.entries[i].gnos != {}
  {
    hide GtidSet.Valid, GtidSet.Listed, Spells, Unique, PlainEntries, SetText, Fields, AllBounded, UuidsDiffer, AllGood, Decoded, Ids;
    ghost var rows := CanSpell(g);
    g.Pointers();
    g.Outside();
    SpeltRows(rows, g.entries);
    TextIsReadable(rows);
    NoTextFields();
    var text := Dump(g, rows);
    var src := text + "\0";
    assert src[..|text|] == text && src[|src| - 1] == '\0';
    var read := DecodeSet(src, |text|);
    assert read != null;
    copy := read;
    copy.Pointers();
    copy.Outside();
    RoundTrip(rows, g.entries, copy.entries);
  }

  lemma NoTextFields()
    ensures AllBounded(Fields("", ',')) && UuidsDiffer(Fields("", ','))
  {
    NoFields(',');
    NoFields(':');
    assert [""][1..] == [];
  }
}
