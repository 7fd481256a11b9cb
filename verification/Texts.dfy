/** GTID sets as text: intervals joined by ':', uuid sets joined by ','. */
module Texts {
  import opened Intervals
  import opened Numbers

  // ----- Splitting and joining ----------------------------------------------------------------------------

  // The fields of s between the separators.
  function Fields(s: string, c: char): (p: seq<string>)
    ensures |p| > 0
  {
    if s == "" then [""]
    else
      var n := |s| - 1;
      var p := Fields(s[..n], c);
      if s[n] == c then p + [""] else p[..|p| - 1] + [p[|p| - 1] + [s[n]]]
  }

  function Join(p: seq<string>, c: char): string {
    if p == [] then ""
    else if |p| == 1 then p[0]
    else Join(p[..|p| - 1], c) + [c] + p[|p| - 1]
  }

  predicate Free(s: string, c: char) {
    forall i :: 0 <= i < |s| ==> s[i] != c
  }

  lemma {:induction false} FieldsExtend(s: string, x: string, c: char)
    requires Free(x, c)
    ensures var p := Fields(s, c); Fields(s + x, c) == p[..|p| - 1] + [p[|p| - 1] + x]
  {
    var p := Fields(s, c);
    if x == "" {
      assert s + x == s && p[|p| - 1] + x == p[|p| - 1];
    } else {
      var y := x[..|x| - 1];
      FieldsExtend(s, y, c);
      var t := s + x;
      assert t[..|t| - 1] == s + y && t[|t| - 1] == x[|x| - 1];
      assert p[|p| - 1] + y + [x[|x| - 1]] == p[|p| - 1] + x;
    }
  }

  lemma FieldsNext(s: string, c: char)
    ensures Fields(s + [c], c) == Fields(s, c) + [""]
  {
    assert (s + [c])[..|s|] == s;
  }

  lemma NoFields(c: char)
    ensures Fields("", c) == [""]
  {
  }

  lemma OneField(s: string, c: char)
    requires Free(s, c)
    ensures Fields(s, c) == [s]
  {
    hide Fields;
    NoFields(c);
    FieldsExtend("", s, c);
    assert "" + s == s && [""][..0] == [];
  }

  // What was joined is found again.
  lemma {:induction false} FieldsOfJoin(p: seq<string>, c: char)
    requires p != [] && forall i :: 0 <= i < |p| ==> Free(p[i], c)
    ensures Fields(Join(p, c), c) == p
  {
    hide Fields;
    var n := |p| - 1;
    NoFields(c);
    if n == 0 {
      FieldsExtend("", p[0], c);
      assert "" + p[0] == p[0] && p == [p[0]];
    } else {
      FieldsOfJoin(p[..n], c);
      FieldsNext(Join(p[..n], c), c);
      FieldsExtend(Join(p[..n], c) + [c], p[n], c);
      assert (p[..n] + [""])[..n] == p[..n] && "" + p[n] == p[n] && p == p[..n] + [p[n]];
    }
  }

  // Only the last piece changes when a text goes on.
  lemma {:induction false} FieldsPrefix(s: string, x: string, c: char)
    ensures var p, q := Fields(s, c), Fields(s + x, c); |p| <= |q| && q[..|p| - 1] == p[..|p| - 1]
  {
    if x == "" {
      assert s + x == s;
    } else {
      hide Fields;
      var n := |x| - 1;
      FieldsPrefix(s, x[..n], c);
      assert s + x == (s + x[..n]) + [x[n]];
      OneMoreChar(s + x[..n], x[n], c);
    }
  }

  lemma OneMoreChar(s: string, x: char, c: char)
    ensures var p := Fields(s, c);
            Fields(s + [x], c) == if x == c then p + [""] else p[..|p| - 1] + [p[|p| - 1] + [x]]
  {
    assert (s + [x])[..|s|] == s;
  }

  lemma {:induction false} FieldsAreFree(s: string, c: char)
    ensures forall i :: 0 <= i < |Fields(s, c)| ==> Free(Fields(s, c)[i], c)
  {
    if s != "" {
      FieldsAreFree(s[..|s| - 1], c);
    }
  }

  // ----- Intervals ----------------------------------------------------------------------------------------

  function IntervalText(x: Interval): string {
    if x.start == x.end then Repr(x.start) else Repr(x.start) + "-" + Repr(x.end)
  }

  function FirstOf(s: string, c: char): (i: nat)
    ensures i <= |s| && (i < |s| ==> s[i] == c) && Free(s[..i], c)
  {
    if s == "" || s[0] == c then 0
    else
      var i := 1 + FirstOf(s[1..], c);
      assert forall j :: 1 <= j < i ==> s[..i][j] == s[1..][..i - 1][j - 1];
      i
  }

  lemma FirstIs(s: string, c: char, i: nat)
    requires i <= |s| && (i < |s| ==> s[i] == c) && Free(s[..i], c)
    ensures FirstOf(s, c) == i
  {
    var k := FirstOf(s, c);
    assert forall j :: 0 <= j < i ==> s[j] == s[..i][j];
    assert forall j :: 0 <= j < k ==> s[j] == s[..k][j];
  }

  // The piece t reads as the interval x: one number, or two with a hyphen between.
  ghost predicate Reads(t: string, x: Interval) {
    var i := FirstOf(t, '-');
    if i == |t| then Denotes(t, x.start) && x.end == x.start
    else Denotes(t[..i], x.start) && Denotes(t[i + 1..], x.end)
  }

  lemma PositiveRepr(v: int)
    requires v > 0
    ensures AllDigits(Repr(v)) && Free(Repr(v), '-') && Free(Repr(v), ':') && Free(Repr(v), ',') && Repr(v) != ""
  {
    NumeralValue(v);
  }

  lemma IntervalTextReads(x: Interval, y: Interval)
    requires GNO_INITIAL <= x.start <= x.end < GNO_MAX
    ensures Reads(IntervalText(x), y) <==> y == x
    ensures Free(IntervalText(x), ':') && Free(IntervalText(x), ',') && IntervalText(x) != ""
  {
    var t := IntervalText(x);
    PositiveRepr(x.start);
    PositiveRepr(x.end);
    NumberRoundTrip(x.start, y.start);
    NumberRoundTrip(x.end, y.end);
    if x.start == x.end {
      FirstIs(t, '-', |t|);
    } else {
      var i := |Repr(x.start)|;
      assert t[..i] == Repr(x.start) && t[i + 1..] == Repr(x.end);
      FirstIs(t, '-', i);
    }
  }

  function ZeroRun(t: string, i: nat): (k: nat)
    requires i <= |t|
    ensures i <= k <= |t| && (forall j :: i <= j < k ==> t[j] == '0') && (k < |t| ==> t[k] != '0')
    decreases |t| - i
  {
    if i < |t| && t[i] == '0' then ZeroRun(t, i + 1) else i
  }

  lemma DenotesOnce(t: string, v: int, w: int)
    requires Denotes(t, v) && Denotes(t, w)
    ensures v == w
  {
    if t == "0" {
      ZeroDenotes();
    } else {
      Reading(t, ZeroRun(t, SignLength(t)));
    }
  }

  lemma ReadsOnce(t: string, x: Interval, y: Interval)
    requires Reads(t, x) && Reads(t, y)
    ensures x == y
  {
    var i := FirstOf(t, '-');
    if i == |t| {
      DenotesOnce(t, x.start, y.start);
    } else {
      DenotesOnce(t[..i], x.start, y.start);
      DenotesOnce(t[i + 1..], x.end, y.end);
    }
  }

  // ----- Uuid sets ----------------------------------------------------------------------------------------

  function IntervalTexts(s: seq<Interval>): (p: seq<string>)
    ensures |p| == |s| && forall i :: 0 <= i < |s| ==> p[i] == IntervalText(s[i])
  {
    seq(|s|, i requires 0 <= i < |s| => IntervalText(s[i]))
  }

  function UuidText(uuid: string, s: seq<Interval>): string {
    Join([uuid] + IntervalTexts(s), ':')
  }

  // A piece after the uuid: nothing, or a valid interval.
  ghost predicate GoodPart(p: string) {
    p == "" || exists x :: Reads(p, x) && ValidRange(x.start, x.end)
  }

  ghost function PartGnos(p: string): set<int>
    requires GoodPart(p)
  {
    if p == "" then {} else
      var x :| Reads(p, x) && ValidRange(x.start, x.end);
      Range(x.start, x.end)
  }

  ghost predicate GoodParts(p: seq<string>) {
    forall i :: 0 <= i < |p| ==> GoodPart(p[i])
  }

  ghost function PartsGnos(p: seq<string>): set<int>
    requires GoodParts(p)
  {
    if p == [] then {} else PartsGnos(p[..|p| - 1]) + PartGnos(p[|p| - 1])
  }

  lemma PartIs(p: string, x: Interval)
    requires p != "" && Reads(p, x) && ValidRange(x.start, x.end)
    ensures GoodPart(p) && PartGnos(p) == Range(x.start, x.end)
  {
    var y :| Reads(p, y) && ValidRange(y.start, y.end) && PartGnos(p) == Range(y.start, y.end);
    ReadsOnce(p, x, y);
  }

  lemma NoParts()
    ensures GoodParts([]) && PartsGnos([]) == {} && Gnos([]) == {}
  {
  }

  lemma PartsStep(p: seq<string>)
    requires p != [] && GoodParts(p[..|p| - 1]) && GoodPart(p[|p| - 1])
    ensures GoodParts(p) && PartsGnos(p) == PartsGnos(p[..|p| - 1]) + PartGnos(p[|p| - 1])
  {
    assert forall i :: 0 <= i < |p| - 1 ==> p[i] == p[..|p| - 1][i];
  }

  lemma {:induction false} IntervalTextsRead(s: seq<Interval>)
    requires forall i :: 0 <= i < |s| ==> ValidRange(s[i].start, s[i].end) && s[i].end < GNO_MAX
    ensures GoodParts(IntervalTexts(s)) && PartsGnos(IntervalTexts(s)) == Gnos(s)
  {
    hide IntervalText, Reads, GoodPart, PartGnos, GoodParts, PartsGnos, Gnos, Count;
    var p := IntervalTexts(s);
    if s == [] {
      NoParts();
    } else {
      var n := |s| - 1;
      IntervalTextsRead(s[..n]);
      IntervalTextReads(s[n], s[n]);
      PartIs(IntervalText(s[n]), s[n]);
      assert p[..n] == IntervalTexts(s[..n]);
      PartsStep(p);
      assert s == s[..n] + [s[n]];
      Concat(s[..n], [s[n]]);
      Single(s[n]);
    }
  }

  // The fields of a uuid set's text are its uuid and its intervals.
  lemma UuidTextFields(uuid: string, s: seq<Interval>)
    requires Free(uuid, ':') && forall i :: 0 <= i < |s| ==> ValidRange(s[i].start, s[i].end) && s[i].end < GNO_MAX
    ensures Fields(UuidText(uuid, s), ':') == [uuid] + IntervalTexts(s)
  {
    var p := [uuid] + IntervalTexts(s);
    forall i | 0 <= i < |p|
      ensures Free(p[i], ':')
    {
      if i > 0 { IntervalTextReads(s[i - 1], s[i - 1]); }
    }
    FieldsOfJoin(p, ':');
  }

  // Equal text means equal uuid and equal set.
  lemma UuidTextIsCanonical(u: string, s: seq<Interval>, v: string, t: seq<Interval>)
    requires Free(u, ':') && Free(v, ':') && Canonical(s) && Canonical(t)
    ensures UuidText(u, s) == UuidText(v, t) <==> u == v && Gnos(s) == Gnos(t)
  {
    UuidTextFields(u, s);
    UuidTextFields(v, t);
    IntervalTextsRead(s);
    IntervalTextsRead(t);
    if UuidText(u, s) == UuidText(v, t) {
      assert ([u] + IntervalTexts(s))[0] == ([v] + IntervalTexts(t))[0];
      assert ([u] + IntervalTexts(s))[1..] == IntervalTexts(s) && ([v] + IntervalTexts(t))[1..] == IntervalTexts(t);
    }
    if Gnos(s) == Gnos(t) {
      CanonicalUnique(s, t);
    }
  }

  // ----- Sets of uuid sets --------------------------------------------------------------------------------

  datatype Row = Row(uuid: string, ivals: seq<Interval>)

  // The texts of the uuid sets that are not empty.
  function RowTexts(rows: seq<Row>): seq<string> {
    if rows == [] then [] else
      var n := |rows| - 1;
      if rows[n].ivals == [] then RowTexts(rows[..n])
      else RowTexts(rows[..n]) + [UuidText(rows[n].uuid, rows[n].ivals)]
  }

  function SetText(rows: seq<Row>): string {
    Join(RowTexts(rows), ',')
  }

  // A piece between commas.
  ghost predicate GoodUuid(t: string) {
    t != "" && GoodParts(Fields(t, ':')[1..])
  }

  function UuidOf(t: string): string {
    Fields(t, ':')[0]
  }

  ghost function GnosOfText(t: string): set<int>
    requires GoodUuid(t)
  {
    PartsGnos(Fields(t, ':')[1..])
  }

  // The rows that are not empty, as what is to be read back.
  ghost predicate ReadsAs(t: string, row: Row) {
    GoodUuid(t) && UuidOf(t) == row.uuid && GnosOfText(t) == Gnos(row.ivals)
  }

  predicate Plain(uuid: string) {
    Free(uuid, ':') && Free(uuid, ',')
  }

  ghost predicate PlainRows(rows: seq<Row>) {
    forall i :: 0 <= i < |rows| ==> Plain(rows[i].uuid) && Canonical(rows[i].ivals)
  }

  lemma {:induction false} FreeJoin(p: seq<string>, c: char, d: char)
    requires c != d && forall i :: 0 <= i < |p| ==> Free(p[i], d)
    ensures Free(Join(p, c), d)
  {
    if |p| > 1 {
      FreeJoin(p[..|p| - 1], c, d);
    }
  }

  lemma UuidTextReads(row: Row)
    requires Plain(row.uuid) && Canonical(row.ivals) && row.ivals != []
    ensures ReadsAs(UuidText(row.uuid, row.ivals), row) && Free(UuidText(row.uuid, row.ivals), ',')
  {
    var p := [row.uuid] + IntervalTexts(row.ivals);
    UuidTextFields(row.uuid, row.ivals);
    IntervalTextsRead(row.ivals);
    assert p[1..] == IntervalTexts(row.ivals);
    forall i | 0 <= i < |p|
      ensures Free(p[i], ',')
    {
      if i > 0 { IntervalTextReads(row.ivals[i - 1], row.ivals[i - 1]); }
    }
    FreeJoin(p, ':', ',');
    NoFields(':');
  }

  // The rows that are not empty.
  function Filled(rows: seq<Row>): seq<Row> {
    if rows == [] then [] else
      var n := |rows| - 1;
      if rows[n].ivals == [] then Filled(rows[..n]) else Filled(rows[..n]) + [rows[n]]
  }

  lemma {:induction false} FilledTexts(rows: seq<Row>)
    requires PlainRows(rows)
    ensures |RowTexts(rows)| == |Filled(rows)|
    ensures forall i :: 0 <= i < |Filled(rows)| ==> ReadsAs(RowTexts(rows)[i], Filled(rows)[i]) && Free(RowTexts(rows)[i], ',')
  {
    if rows != [] {
      var n := |rows| - 1;
      FilledTexts(rows[..n]);
      if rows[n].ivals != [] {
        UuidTextReads(rows[n]);
      }
    }
  }

  // The text of a set falls into pieces that read as its rows that are not empty; it is empty if there are none.
  lemma SetTextFields(rows: seq<Row>)
    requires PlainRows(rows)
    ensures Filled(rows) == [] ==> SetText(rows) == ""
    ensures Filled(rows) != [] ==>
              (var p := Fields(SetText(rows), ',');
              SetText(rows) != "" && |p| == |Filled(rows)| && forall i :: 0 <= i < |p| ==> ReadsAs(p[i], Filled(rows)[i]))
  {
    FilledTexts(rows);
    if Filled(rows) != [] {
      FieldsOfJoin(RowTexts(rows), ',');
      NoFields(',');
    }
  }

  // ----- How long a text can be ---------------------------------------------------------------------------

  lemma {:induction false} UuidTextLength(uuid: string, s: seq<Interval>)
    requires forall i :: 0 <= i < |s| ==> ValidRange(s[i].start, s[i].end) && s[i].end < GNO_MAX
    ensures |UuidText(uuid, s)| <= |uuid| + 44 * |s|
  {
    if s == [] {
      assert [uuid] + IntervalTexts(s) == [uuid];
    } else {
      var n := |s| - 1;
      UuidTextLength(uuid, s[..n]);
      UuidTextStep(uuid, s, n);
      IntervalTextLength(s[n]);
    }
  }

  // One interval more.
  lemma UuidTextStep(uuid: string, s: seq<Interval>, i: nat)
    requires i < |s|
    ensures UuidText(uuid, s[..i + 1]) == UuidText(uuid, s[..i]) + [':'] + IntervalText(s[i])
    ensures s[..|s|] == s
  {
    var p := [uuid] + IntervalTexts(s[..i + 1]);
    assert p[..i + 1] == [uuid] + IntervalTexts(s[..i]);
  }

  lemma IntervalTextLength(x: Interval)
    requires ValidRange(x.start, x.end) && x.end < GNO_MAX
    ensures |IntervalText(x)| <= 41 && |Repr(x.start)| <= 20 && |Repr(x.end)| <= 20
  {
    ReprIsShort(x.start);
    ReprIsShort(x.end);
  }
}
