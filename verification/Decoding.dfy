/** Reading GTID sets from text. */
module Decoding {
  import opened Encoding
  import opened GtidSets
  import opened Intervals
  import opened Numbers
  import opened Tables
  import opened Texts
  import opened UuidSets
  import Seqs

  // src is memory up to a terminator; what follows the text to be read in it is not a digit.
  predicate Terminated(src: string, end: nat) {
    end < |src| && src[|src| - 1] == '\0' && !IsDigit(src[end])
  }

  // Reads the numbers of an interval.
  method DecodeInterval(src: string, at: nat, len: nat) returns (r: Option<Interval>)
    requires Terminated(src, at + len)
    ensures forall x :: r == Some(x) <==> Reads(src[at..at + len], x)
  {
    hide Denotes, RunsOver;
    ghost var t := src[at..at + len];
    var index := 0;
    while index < len && src[at + index] != '-'
      invariant index <= len && Free(t[..index], '-')
    {
      index := index + 1;
    }
    FirstIs(t, '-', index);
    if index == len {
      Seqs.SliceAfter(src, at, len);
      OverrunIsWrong(src[at..], len);
      var start := String2Ll(src[at..], len);
      r := if start.Some? then Some(Interval(start.value, start.value)) else None;
    } else {
      var rest := src[at + index + 1..];
      Seqs.SliceAfter(src, at, index);
      Seqs.Slice(src, at, at + len, 0, index);
      Seqs.SliceAfter(src, at + index + 1, len - index - 1);
      Seqs.Slice(src, at, at + len, index + 1, len);
      OverrunIsWrong(src[at..], index);
      OverrunIsWrong(rest, len - index - 1);
      var start := String2Ll(src[at..], index);
      if start.None? { return None; }
      var end := String2Ll(rest, len - index - 1);
      if end.None? { return None; }
      r := Some(Interval(start.value, end.value));
    }
  }

  // No interval ends at the greatest gno there is.
  ghost predicate Bounded(p: seq<string>) {
    forall i, x :: 0 <= i < |p| && Reads(p[i], x) ==> x.end < GNO_MAX
  }

  lemma GivenRange()
    ensures forall start, end :: ValidRange(start, end) ==> Given(start, end) == Range(start, end)
  {
  }

  // Adds the interval of a piece that is not empty, if it is good.
  method AddPart(src: string, at: nat, len: nat, u: UuidSet) returns (good: bool)
    requires Terminated(src, at + len) && len > 0 && u.Valid()
    requires forall x :: Reads(src[at..at + len], x) ==> x.end < GNO_MAX
    modifies u.Repr()
    ensures u.Valid() && forall o :: o in u.Repr() ==> o in old(u.Repr()) || fresh(o)
    ensures good <==> GoodPart(src[at..at + len])
    ensures good ==> u.Row().gnos == old(u.Row().gnos) + PartGnos(src[at..at + len])
  {
    ghost var t := src[at..at + len];
    hide Reads, UuidSet.Repr, UuidSet.Valid, PartGnos, UuidSet.Row;
    GivenRange();
    var r := DecodeInterval(src, at, len);
    if r == None || !ValidRange(r.value.start, r.value.end) {
      assert forall x :: Reads(t, x) ==> r == Some(x);
      assert |t| == len;
      return false;
    }
    PartIs(t, r.value);
    var added := u.Add(r.value.start, r.value.end);
    good := true;
  }

  // Any piece: an empty one is passed over.
  method TakePart(src: string, at: nat, len: nat, u: UuidSet) returns (good: bool)
    requires Terminated(src, at + len) && u.Valid()
    requires forall x :: Reads(src[at..at + len], x) ==> x.end < GNO_MAX
    modifies u.Repr()
    ensures u.Valid() && forall o :: o in u.Repr() ==> o in old(u.Repr()) || fresh(o)
    ensures good <==> GoodPart(src[at..at + len])
    ensures good ==> u.Row().gnos == old(u.Row().gnos) + PartGnos(src[at..at + len])
  {
    hide Reads, UuidSet.Repr, UuidSet.Valid, UuidSet.Row;
    good := true;
    if len > 0 {
      good := AddPart(src, at, len, u);
    }
  }

  // The text up to index e is whole fields and the beginning of one more.
  ghost predicate Split(t: string, c: char, start: nat, e: nat, done: seq<string>) {
    start <= e <= |t| && Fields(t[..e], c) == done + [t[start..e]]
  }

  lemma SplitNext(t: string, c: char, start: nat, e: nat, done: seq<string>)
    requires Split(t, c, start, e, done) && e < |t|
    ensures t[e] != c ==> Split(t, c, start, e + 1, done)
    ensures t[e] == c ==> Split(t, c, e + 1, e + 1, done + [t[start..e]])
    ensures t[e] == c ==> |done| < |Fields(t, c)| && Fields(t, c)[..|done| + 1] == done + [t[start..e]]
  {
    hide Fields;
    assert t[..e + 1] == t[..e] + [t[e]];
    OneMoreChar(t[..e], t[e], c);
    var p := done + [t[start..e]];
    assert p[..|p| - 1] == done && p[|p| - 1] == t[start..e];
    assert t[start..e] + [t[e]] == t[start..e + 1];
    if t[e] == c {
      assert t[e + 1..e + 1] == "";
      FieldsPrefix(t[..e + 1], t[e + 1..], c);
      assert t == t[..e + 1] + t[e + 1..];
      assert (p + [""])[..|p|] == p;
    }
  }

  lemma SplitEnds(t: string, c: char, start: nat, done: seq<string>)
    requires Split(t, c, start, |t|, done)
    ensures Fields(t, c) == done + [t[start..]]
  {
    assert t[..|t|] == t && t[start..|t|] == t[start..];
  }

  // The text up to index e is a uuid, whole parts and the beginning of one more.
  ghost predicate Parted(t: string, uuid: string, start: nat, e: nat, done: seq<string>) {
    Split(t, ':', start, e, [uuid] + done)
  }

  lemma PartedNext(t: string, uuid: string, start: nat, e: nat, done: seq<string>)
    requires Parted(t, uuid, start, e, done) && e < |t|
    ensures t[e] != ':' ==> Parted(t, uuid, start, e + 1, done)
    ensures t[e] == ':' ==> Parted(t, uuid, e + 1, e + 1, done + [t[start..e]])
    ensures t[e] == ':' ==> (var p := Fields(t, ':')[1..]; |done| < |p| && p[|done|] == t[start..e])
  {
    assert start <= e;
    hide Split, Fields;
    SplitNext(t, ':', start, e, [uuid] + done);
    if t[e] == ':' {
      var part := t[start..e];
      assert [uuid] + done + [part] == [uuid] + (done + [part]);
      assert ([uuid] + done + [part])[|done| + 1] == part;
    }
  }

  lemma PartedEnds(t: string, uuid: string, start: nat, done: seq<string>)
    requires Parted(t, uuid, start, |t|, done)
    ensures Fields(t, ':')[1..] == done + [t[start..]] && UuidOf(t) == uuid
  {
    hide Fields;
    SplitEnds(t, ':', start, [uuid] + done);
    var rest := done + [t[start..]];
    Seqs.Assoc([uuid], done, [t[start..]]);
    assert ([uuid] + rest)[0] == uuid && ([uuid] + rest)[1..] == rest;
  }

  lemma PartedStarts(t: string, i: nat)
    requires i <= |t| && Free(t[..i], ':') && (i < |t| ==> t[i] == ':')
    ensures i == |t| ==> Fields(t, ':') == [t]
    ensures i < |t| ==> Parted(t, t[..i], i + 1, i + 1, [])
  {
    hide Fields;
    OneField(t[..i], ':');
    if i == |t| {
      assert t[..i] == t;
    } else {
      assert t[..i + 1] == t[..i] + [':'] && t[i + 1..i + 1] == "";
      FieldsNext(t[..i], ':');
      assert [t[..i]] + [""] == [t[..i]] + [] + [""];
    }
  }

  lemma BadPart(t: string, k: nat)
    requires var p := Fields(t, ':')[1..]; k < |p| && !GoodPart(p[k])
    ensures !GoodUuid(t)
  {
  }

  // Reads a uuid set; null if there is no text or some interval is bad.
  method DecodeUuidSet(src: string, at: nat, len: nat) returns (u: UuidSet?)
    requires Terminated(src, at + len) && Bounded(Fields(src[at..at + len], ':')[1..])
    ensures u == null <==> !GoodUuid(src[at..at + len])
    ensures u != null ==> fresh(u) && fresh(u.Repr()) && u.Valid() && u.next == null
    ensures u != null ==> u.uuid == UuidOf(src[at..at + len]) && u.Row().gnos == GnosOfText(src[at..at + len])
  {
    hide Fields, GoodPart, PartGnos, PartsGnos, Reads, Parted, UuidSet.Valid, UuidSet.Repr, UuidSet.Row;
    ghost var t := src[at..at + len];
    Inside(src, at, len, 0, 0);
    if len == 0 { return null; }
    var i: nat := 0;
    while i < len && src[at + i] != ':'
      invariant i <= len && Free(t[..i], ':')
    {
      i := i + 1;
    }
    PartedStarts(t, i);
    Inside(src, at, len, 0, i);
    u := new UuidSet(src[at..at + i]);
    NoParts();
    if i == len {
      assert t[..i] == t && [t][1..] == [];
      return u;
    }
    NotInside(u);
    u := DecodeParts(src, at, len, i, u);
  }

  lemma Inside(src: string, at: nat, len: nat, i: nat, j: nat)
    requires at + len <= |src| && i <= j <= len
    ensures src[at..at + len][i..j] == src[at + i..at + j] && |src[at..at + len]| == len
    ensures i == 0 ==> src[at..at + len][..j] == src[at..at + j]
    ensures j == len ==> src[at..at + len][i..] == src[at + i..at + j]
  {
    Seqs.Slice(src, at, at + len, i, j);
  }

  lemma NotInside(u: UuidSet)
    ensures u !in u.Repr()
  {
  }

  method DecodeParts(src: string, at: nat, len: nat, i: nat, u: UuidSet) returns (r: UuidSet?)
    requires Terminated(src, at + len) && Bounded(Fields(src[at..at + len], ':')[1..]) && i < len
    requires Parted(src[at..at + len], src[at..at + len][..i], i + 1, i + 1, [])
    requires u.Valid() && u.Row().gnos == {} && u.uuid == src[at..at + len][..i]
    modifies u.Repr()
    ensures r == null <==> !GoodUuid(src[at..at + len])
    ensures u.Valid() && forall o :: o in u.Repr() ==> o in old(u.Repr()) || fresh(o)
    ensures r != null ==> r == u && u.uuid == UuidOf(src[at..at + len]) && u.Row().gnos == GnosOfText(src[at..at + len])
  {
    hide Fields, GoodPart, PartGnos, GoodParts, PartsGnos, Reads, Parted, GoodUuid, GnosOfText, UuidOf;
    hide UuidSet.Valid, UuidSet.Repr, UuidSet.Row;
    ghost var t, done := src[at..at + len], [];
    var start: nat, end: nat := i + 1, i + 1;
    Inside(src, at, len, 0, 0);
    NoParts();
    while end < len
      invariant start <= end <= len && Parted(t, t[..i], start, end, done)
      invariant u.Valid() && forall o :: o in u.Repr() ==> o in old(u.Repr()) || fresh(o)
      invariant GoodParts(done) && u.Row().gnos == PartsGnos(done)
    {
      PartedNext(t, t[..i], start, end, done);
      if src[at + end] == ':' {
        ghost var part := t[start..end];
        Inside(src, at, len, start, end);
        var good := TakePart(src, at + start, end - start, u);
        if !good {
          BadPart(t, |done|);
          return null;
        }
        MorePart(done, part);
        done := done + [part];
        start := end + 1;
      }
      end := end + 1;
    }
    PartedEnds(t, t[..i], start, done);
    ghost var part := t[start..];
    Inside(src, at, len, start, len);
    assert (done + [part])[|done|] == part;
    var good := TakePart(src, at + start, end - start, u);
    if !good {
      BadPart(t, |done|);
      return null;
    }
    MorePart(done, part);
    AllParts(t, done + [part]);
    r := u;
  }

  lemma MorePart(done: seq<string>, part: string)
    requires GoodParts(done) && GoodPart(part)
    ensures GoodParts(done + [part]) && PartsGnos(done + [part]) == PartsGnos(done) + PartGnos(part)
  {
    var p := done + [part];
    assert p[..|p| - 1] == done;
    PartsStep(p);
  }

  lemma AllParts(t: string, p: seq<string>)
    requires t != "" && Fields(t, ':')[1..] == p && GoodParts(p)
    ensures GoodUuid(t) && GnosOfText(t) == PartsGnos(p)
  {
  }

  // ----- Whole sets -----------------------------------------------------------------------------------------

  ghost predicate AllBounded(p: seq<string>) {
    forall i :: 0 <= i < |p| ==> Bounded(Fields(p[i], ':')[1..])
  }

  ghost predicate OtherUuid(p: seq<string>, i: nat, j: nat)
    requires i < |p| && j < |p|
  {
    UuidOf(p[i]) != UuidOf(p[j])
  }

  ghost predicate UuidsDiffer(p: seq<string>) {
    forall i, j :: 0 <= i < j < |p| ==> OtherUuid(p, i, j)
  }

  // The rows say what the fields say.
  ghost predicate Decoded(e: seq<Entry>, p: seq<string>) {
    |e| == |p| && forall i :: 0 <= i < |p| ==> GoodUuid(p[i]) && e[i].uuid == UuidOf(p[i]) && e[i].gnos == GnosOfText(p[i])
  }

  ghost predicate AllGood(p: seq<string>) {
    forall i :: 0 <= i < |p| ==> GoodUuid(p[i])
  }

  // Reads a set; null if some uuid set is bad. The list takes whatever uuids the text has.
  method DecodeSet(src: string, len: nat) returns (g: GtidSet?)
    requires Terminated(src, len) && AllBounded(Fields(src[..len], ',')) && UuidsDiffer(Fields(src[..len], ','))
    ensures g == null <==> len > 0 && !AllGood(Fields(src[..len], ','))
    ensures g != null ==> fresh(g) && g.Valid() && g.current == null
    ensures g != null ==> Decoded(g.entries, if len == 0 then [] else Fields(src[..len], ','))
  {
    hide GtidSet.Valid, GtidSet.Listed, Fields, GoodUuid, UuidOf, GnosOfText, Split, AllBounded, UuidsDiffer, AllGood, Decoded;
    ghost var t, p, done := src[..len], Fields(src[..len], ','), [];
    NothingDecoded();
    g := new GtidSet();
    if len == 0 { return g; }
    var at: nat, i: nat := 0, 0;
    SplitStarts(t);
    while i < len
      invariant at <= i <= len && Split(t, ',', at, i, done) && fresh(g) && g.Valid() && g.current == null
      invariant (forall o :: o in g.repr ==> fresh(o)) && forall u :: u in g.members ==> fresh(u)
      invariant Decoded(g.entries, done) && |done| <= |p| && done == p[..|done|]
    {
      SplitNext(t, ',', at, i, done);
      if src[i] == ',' {
        FieldIs(src, len, p, done, at, i);
        var good := AppendText(src, at, i - at, g, p, |done|);
        if !good { return null; }
        done := done + [t[at..i]];
        at := i + 1;
      }
      i := i + 1;
    }
    SplitEnds(t, ',', at, done);
    LastFieldIs(src, len, p, done, at);
    var good := AppendText(src, at, len - at, g, p, |done|);
    if !good { return null; }
    DecodedGood(g.entries, p);
  }

  lemma NothingDecoded()
    ensures Decoded([], [])
  {
  }

  lemma SplitStarts(t: string)
    ensures Split(t, ',', 0, 0, [])
  {
    assert t[..0] == "" && t[0..0] == "" && [] + [""] == [""];
    NoFields(',');
  }

  lemma FieldIs(src: string, len: nat, p: seq<string>, done: seq<string>, at: nat, i: nat)
    requires len <= |src| && at <= i <= len && |done| < |p|
    requires p[..|done| + 1] == done + [src[..len][at..i]]
    ensures p[|done|] == src[at..i] && p[..|done|] == done
  {
    Seqs.Slice(src, 0, len, at, i);
    assert src[0..len] == src[..len];
    assert (done + [src[..len][at..i]])[|done|] == src[at..i];
    assert p[..|done| + 1][..|done|] == p[..|done|];
    assert (done + [src[..len][at..i]])[..|done|] == done;
  }

  lemma LastFieldIs(src: string, len: nat, p: seq<string>, done: seq<string>, at: nat)
    requires at <= len <= |src| && p == done + [src[..len][at..]]
    ensures |done| + 1 == |p| && p[|done|] == src[at..len] && p[..|done|] == done && p[..|done| + 1] == p
  {
    assert src[..len][at..] == src[at..len];
  }

  lemma DecodedGood(e: seq<Entry>, p: seq<string>)
    requires Decoded(e, p)
    ensures AllGood(p)
  {
  }

  lemma OneBad(p: seq<string>, k: nat)
    requires k < |p| && !GoodUuid(p[k])
    ensures !AllGood(p)
  {
  }

  // Reads field number k and puts it at the end of the list.
  method AppendText(src: string, at: nat, len: nat, g: GtidSet, ghost p: seq<string>, ghost k: nat) returns (good: bool)
    requires Terminated(src, at + len) && AllBounded(p) && UuidsDiffer(p) && k < |p| && p[k] == src[at..at + len]
    requires g.Valid() && g.current == null && Decoded(g.entries, p[..k])
    modifies g`header, g`tail, g`sets, g`entries, g`members, g`repr, g.members`next
    ensures good ==> g.Valid() && g.current == null && Decoded(g.entries, p[..k + 1])
    ensures !good ==> !AllGood(p)
    ensures (forall o :: o in g.repr ==> o in old(g.repr) || fresh(o))
    ensures forall u :: u in g.members ==> u in old(g.members) || fresh(u)
  {
    hide GtidSet.Valid, GtidSet.Listed, Fields, GoodUuid, UuidOf, GnosOfText, UuidsDiffer, AllGood, Decoded, Bounded;
    hide UuidSet.Valid, UuidSet.Repr, ToTable, Size;
    var u := DecodeUuidSet(src, at, len);
    if u == null {
      OneBad(p, k);
      return false;
    }
    DecodedSoFar(g.entries, p, k);
    g.Pointers();
    g.Outside();
    ghost var e, row := g.entries, u.Row();
    var added := g.Append(u);
    DecodedNext(e, p, k, row);
    StaysIn(g.cached, old(g.sets), u);
    Nobody(g.sets);
    g.AllValid();
    good := true;
  }

  lemma DecodedSoFar(e: seq<Entry>, p: seq<string>, k: nat)
    requires k < |p| && Decoded(e, p[..k]) && UuidsDiffer(p)
    ensures UuidOf(p[k]) !in ToTable(e)
  {
    TableKeys(e);
    forall i | 0 <= i < |e|
      ensures e[i].uuid != UuidOf(p[k])
    {
      assert e[i].uuid == UuidOf(p[..k][i]) && OtherUuid(p, i, k);
    }
  }

  lemma DecodedNext(e: seq<Entry>, p: seq<string>, k: nat, row: Entry)
    requires k < |p| && Decoded(e, p[..k]) && GoodUuid(p[k]) && row.uuid == UuidOf(p[k]) && row.gnos == GnosOfText(p[k])
    ensures Decoded(e + [row], p[..k + 1])
  {
    hide GoodUuid, UuidOf;
    assert p[..k + 1] == p[..k] + [p[k]];
  }
}
