/** The two queries on the sequence index: the continue point of a request, and the ids from an offset on. */
module GtidSeqScans {
  import opened GtidSeqs
  import opened GtidSets
  import opened GtidSetAlgebra
  import opened Intervals
  import opened IntervalEdits
  import opened Segments
  import opened SeqLogs
  import opened SeqQueries
  import opened Tables
  import opened UuidSets

  // The result set shares no memory with the index.
  ghost predicate Foreign(index: GtidSeq, cont: GtidSet)
    reads index`members, index`arrays, cont`repr, cont`members
  {
    && index !in cont.repr && cont !in index.arrays && index.arrays !! cont.repr
    && (forall s :: s in index.members ==> s !in cont.repr)
    && (forall u :: u in cont.members ==> u !in index.arrays)
  }

  // Add gnos to the result; nothing else changes.
  method Collect(index: GtidSeq, cont: GtidSet, uuid: Uuid, start: int, end: int)
    requires index.Valid() && cont.Valid() && Foreign(index, cont) && end < GNO_MAX
    modifies cont, cont.repr, cont.members`next
    ensures index.Valid() && index.blocks == old(index.blocks) && index.segs == old(index.segs)
    ensures cont.Valid() && Foreign(index, cont)
    ensures forall o :: o in cont.repr ==> o in old(cont.repr) || fresh(o)
    ensures forall u :: u in cont.members ==> u in old(cont.members) || fresh(u)
    ensures Ids(cont.Map()) == Ids(old(cont.Map())) + (if ValidRange(start, end) then RangeIds(uuid, start, end) else {})
  {
    hide *;
    GivenIds(cont.Map(), uuid, start, end);
    AddOnly(index, cont, uuid, start, end);
  }

  method AddOnly(index: GtidSeq, cont: GtidSet, uuid: Uuid, start: int, end: int)
    requires index.Valid() && cont.Valid() && Foreign(index, cont) && end < GNO_MAX
    modifies cont, cont.repr, cont.members`next
    ensures index.Valid() && index.blocks == old(index.blocks) && index.segs == old(index.segs)
    ensures cont.Valid() && Foreign(index, cont)
    ensures forall o :: o in cont.repr ==> o in old(cont.repr) || fresh(o)
    ensures forall u :: u in cont.members ==> u in old(cont.members) || fresh(u)
    ensures cont.Map() == Added(old(cont.Map()), uuid, Given(start, end))
  {
    hide GtidSeq.Valid, GtidSet.Valid, GtidSet.Map, GtidSet.Total, Added, Given;
    var added := cont.Add(uuid, start, end);
  }

  lemma GivenIds(t: Table, uuid: Uuid, start: int, end: int)
    ensures Ids(Added(t, uuid, Given(start, end))) == Ids(t) + (if ValidRange(start, end) then RangeIds(uuid, start, end) else {})
  {
    AddedIds(t, uuid, Given(start, end));
  }

  // ----- Where the scan is --------------------------------------------------------------------------------

  // j segments are left to scan, and seg is the last of them.
  ghost predicate Place(index: GtidSeq, seg: Segment?, j: nat)
    reads index`segs
  {
    j <= |index.segs| && seg == (if j > 0 then index.segs[j - 1] else null)
  }

  lemma Begins(index: GtidSeq)
    requires index.Valid()
    ensures GoodBlocks(index.blocks) && |index.segs| == |index.blocks| && Place(index, index.lastseg, |index.blocks|)
  {
  }

  lemma AtPlace(index: GtidSeq, seg: Segment?, j: nat)
    requires index.Valid() && Place(index, seg, j)
    ensures GoodBlocks(index.blocks) && j <= |index.blocks| && (seg == null <==> j == 0)
    ensures seg != null ==> seg.Is(index.blocks[j - 1]) && Good(index.blocks[j - 1]) && Place(index, seg.prev, j - 1)
  {
    if seg != null {
      assert Link(index.segs, j - 1);
    }
  }

  // ----- Xsync ----------------------------------------------------------------------------------------------

  // The next gno of a uuid in the request.
  method NextFor(req: GtidSet, uuid: Uuid) returns (n: int)
    requires req.Valid()
    ensures IsNext(n, GnosFor(Ids(req.Map()), uuid))
  {
    GnosForIsAt(req.Map(), uuid);
    req.Pointers();
    var u, k := req.Find(uuid);
    req.Meaning();
    if u == null {
      n := GNO_INITIAL;
    } else {
      req.Others(k);
      n := u.NextGno();
    }
  }

  // As Collect; the request stays as it is too.
  method CollectFor(index: GtidSeq, req: GtidSet, cont: GtidSet, uuid: Uuid, start: int, end: int)
    requires index.Valid() && req.Valid() && cont.Valid() && Foreign(index, cont) && Disjoint(cont, req)
    requires GNO_INITIAL <= start <= end < GNO_MAX
    modifies cont, cont.repr, cont.members`next
    ensures index.Valid() && index.blocks == old(index.blocks) && index.segs == old(index.segs)
    ensures req.Valid() && req.Map() == old(req.Map()) && cont.Valid() && Foreign(index, cont) && Disjoint(cont, req)
    ensures forall o :: o in cont.repr ==> o in old(cont.repr) || fresh(o)
    ensures forall u :: u in cont.members ==> u in old(cont.members) || fresh(u)
    ensures Ids(cont.Map()) == Ids(old(cont.Map())) + RangeIds(uuid, start, end)
  {
    assert ValidRange(start, end);
    hide *;
    GivenIds(cont.Map(), uuid, start, end);
    AddOnlyFor(index, req, cont, uuid, start, end);
  }

  method AddOnlyFor(index: GtidSeq, req: GtidSet, cont: GtidSet, uuid: Uuid, start: int, end: int)
    requires index.Valid() && req.Valid() && cont.Valid() && Foreign(index, cont) && Disjoint(cont, req) && end < GNO_MAX
    modifies cont, cont.repr, cont.members`next
    ensures index.Valid() && index.blocks == old(index.blocks) && index.segs == old(index.segs)
    ensures req.Valid() && req.Map() == old(req.Map()) && cont.Valid() && Foreign(index, cont) && Disjoint(cont, req)
    ensures forall o :: o in cont.repr ==> o in old(cont.repr) || fresh(o)
    ensures forall u :: u in cont.members ==> u in old(cont.members) || fresh(u)
    ensures cont.Map() == Added(old(cont.Map()), uuid, Given(start, end))
  {
    hide GtidSeq.Valid, GtidSet.Valid, GtidSet.Map, GtidSet.Total, Added, Given, Foreign;
    AddOnly(index, cont, uuid, start, end);
  }

  // Find the continue point of a request: its offset, or -1, and the ids logged from there on.
  method Xsync(index: GtidSeq, req: GtidSet) returns (offset: int, cont: GtidSet)
    requires index.Valid() && req.Valid()
    ensures fresh(cont) && cont.Valid() && (forall o :: o in cont.repr ==> fresh(o)) && forall u :: u in cont.members ==> fresh(u)
    ensures ContinuesAt(Log(index.blocks), Ids(req.Map()), offset, Ids(cont.Map()))
  {
    hide *;
    offset := -1;
    cont := new GtidSet();
    var seg := index.lastseg;
    ghost var j: nat, bs, t := |index.blocks|, index.blocks, Ids(req.Map());
    StartScan(index, req, cont);
    while seg != null
      invariant index.Valid() && req.Valid() && cont.Valid() && Foreign(index, cont) && Disjoint(cont, req)
      invariant index.blocks == bs && Ids(req.Map()) == t && GoodBlocks(bs)
      invariant (forall o :: o in cont.repr ==> fresh(o)) && forall u :: u in cont.members ==> fresh(u)
      invariant fresh(cont) && j <= |bs|
      invariant seg != null ==> Place(index, seg, j) && Scanned(bs, t, j, offset, Ids(cont.Map()))
      invariant seg == null ==> ContinuesAt(Log(bs), t, offset, Ids(cont.Map()))
      decreases if seg == null then 0 else j + 1
    {
      offset, seg := ScanSegment(index, req, cont, seg, offset, j, bs, t);
      j := j - 1;
    }
  }

  lemma StartScan(index: GtidSeq, req: GtidSet, cont: GtidSet)
    requires index.Valid() && cont != req && cont !in req.repr && cont !in index.arrays
    requires cont.repr == {} && cont.members == {} && cont.entries == []
    ensures Foreign(index, cont) && Disjoint(cont, req) && GoodBlocks(index.blocks)
    ensures Place(index, index.lastseg, |index.blocks|)
    ensures Scanned(index.blocks, Ids(req.Map()), |index.blocks|, -1, Ids(cont.Map()))
    ensures index.lastseg == null ==> ContinuesAt(Log(index.blocks), Ids(req.Map()), -1, Ids(cont.Map()))
  {
    Begins(index);
    AtPlace(index, index.lastseg, |index.blocks|);
    assert Ids(cont.Map()) == {};
    ScanStarts(index.blocks, Ids(req.Map()));
    if index.lastseg == null {
      ScanIsComplete(index.blocks, Ids(req.Map()), -1, {});
    }
  }

  method ScanSegment(index: GtidSeq, req: GtidSet, cont: GtidSet, seg: Segment, last: int,
                     ghost j: nat, ghost bs: seq<Block>, ghost t: set<Id>) returns (offset: int, next: Segment?)
    requires index.Valid() && req.Valid() && cont.Valid() && Foreign(index, cont) && Disjoint(cont, req)
    requires index.blocks == bs && Ids(req.Map()) == t && GoodBlocks(bs) && j <= |bs|
    requires Place(index, seg, j) && Scanned(bs, t, j, last, Ids(cont.Map()))
    modifies cont, cont.repr, cont.members`next
    ensures index.Valid() && req.Valid() && cont.Valid() && Foreign(index, cont) && Disjoint(cont, req)
    ensures index.blocks == bs && Ids(req.Map()) == t
    ensures forall o :: o in cont.repr ==> o in old(cont.repr) || fresh(o)
    ensures forall u :: u in cont.members ==> u in old(cont.members) || fresh(u)
    ensures next != null ==> 0 < j && Place(index, next, j - 1) && Scanned(bs, t, j - 1, offset, Ids(cont.Map()))
    ensures next == null ==> ContinuesAt(Log(bs), t, offset, Ids(cont.Map()))
    ensures 0 < j
  {
    hide *;
    AtPlace(index, seg, j);
    var n := NextFor(req, seg.uuid);
    AtPlace(index, seg, j);
    SegmentHolds(seg, bs[j - 1]);
    var start, end := seg.baseGno + seg.tgno, seg.baseGno + seg.ngno - 1;
    if n > end {
      ScanStops(bs, t, j, last, Ids(cont.Map()), n);
      offset, next := last, null;
    } else if n > start {
      ScanCuts(bs, t, j, last, Ids(cont.Map()), n);
      offset := seg.baseOffset + seg.deltas[n - seg.baseGno] as int;
      CollectFor(index, req, cont, seg.uuid, n, end);
      next := null;
    } else {
      ScanGoesOn(bs, t, j, last, Ids(cont.Map()), n);
      offset := seg.baseOffset + seg.deltas[seg.tgno] as int;
      next := ScanWhole(index, req, cont, seg, start, end, offset, j, bs, t);
    }
  }

  lemma SegmentHolds(seg: Segment, b: Block)
    requires seg.Is(b) && Good(b)
    ensures seg.uuid == b.uuid && seg.baseGno == b.baseGno && seg.baseOffset == b.baseOffset && seg.tgno == b.tgno
    ensures seg.tgno < seg.ngno == |b.deltas| <= seg.deltas.Length
    ensures forall i :: 0 <= i < |b.deltas| ==> seg.deltas[i] as int == b.deltas[i]
    ensures GNO_INITIAL <= b.baseGno && b.baseGno + |b.deltas| <= GNO_MAX
  {
  }

  lemma ScanStops(bs: seq<Block>, t: set<Id>, j: nat, offset: int, ids: set<Id>, n: int)
    requires GoodBlocks(bs) && 0 < j <= |bs| && Scanned(bs, t, j, offset, ids) && Good(bs[j - 1])
    requires IsNext(n, GnosFor(t, bs[j - 1].uuid)) && n > bs[j - 1].baseGno + |bs[j - 1].deltas| - 1
    ensures ContinuesAt(Log(bs), t, offset, ids)
  {
    var b := bs[j - 1];
    hide Scanned, ContinuesAt, Log, GoodBlocks;
    ScanEnds(bs, t, j, offset, ids, n, |b.deltas|);
    assert RangeIds(b.uuid, b.baseGno + |b.deltas|, b.baseGno + |b.deltas| - 1) == {};
    assert ids + {} == ids;
  }

  lemma ScanCuts(bs: seq<Block>, t: set<Id>, j: nat, offset: int, ids: set<Id>, n: int)
    requires GoodBlocks(bs) && 0 < j <= |bs| && Scanned(bs, t, j, offset, ids) && Good(bs[j - 1])
    requires IsNext(n, GnosFor(t, bs[j - 1].uuid))
    requires bs[j - 1].baseGno + bs[j - 1].tgno < n <= bs[j - 1].baseGno + |bs[j - 1].deltas| - 1
    ensures ContinuesAt(Log(bs), t, bs[j - 1].baseOffset + bs[j - 1].deltas[n - bs[j - 1].baseGno],
                        ids + RangeIds(bs[j - 1].uuid, n, bs[j - 1].baseGno + |bs[j - 1].deltas| - 1))
  {
    hide Scanned, ContinuesAt, Log, GoodBlocks, RangeIds;
    ScanEnds(bs, t, j, offset, ids, n, n - bs[j - 1].baseGno);
  }

  // The whole segment is new: collect it and go on with the one before.
  method ScanWhole(index: GtidSeq, req: GtidSet, cont: GtidSet, seg: Segment, start: int, end: int, offset: int,
                   ghost j: nat, ghost bs: seq<Block>, ghost t: set<Id>) returns (next: Segment?)
    requires index.Valid() && req.Valid() && cont.Valid() && Foreign(index, cont) && Disjoint(cont, req)
    requires index.blocks == bs && Ids(req.Map()) == t && GoodBlocks(bs) && 0 < j <= |bs|
    requires Place(index, seg, j) && GNO_INITIAL <= start <= end < GNO_MAX
    requires Scanned(bs, t, j - 1, offset, Ids(cont.Map()) + RangeIds(seg.uuid, start, end))
    modifies cont, cont.repr, cont.members`next
    ensures index.Valid() && req.Valid() && cont.Valid() && Foreign(index, cont) && Disjoint(cont, req)
    ensures index.blocks == bs && Ids(req.Map()) == t
    ensures forall o :: o in cont.repr ==> o in old(cont.repr) || fresh(o)
    ensures forall u :: u in cont.members ==> u in old(cont.members) || fresh(u)
    ensures next != null ==> Place(index, next, j - 1) && Scanned(bs, t, j - 1, offset, Ids(cont.Map()))
    ensures next == null ==> ContinuesAt(Log(bs), t, offset, Ids(cont.Map()))
  {
    hide *;
    CollectFor(index, req, cont, seg.uuid, start, end);
    AtPlace(index, seg, j);
    next := seg.prev;
    AtPlace(index, next, j - 1);
    if next == null {
      ScanIsComplete(bs, t, offset, Ids(cont.Map()));
    }
  }

  // ----- Psync ----------------------------------------------------------------------------------------------

  // The ids logged at this offset or later.
  method Psync(index: GtidSeq, offset: int) returns (result: GtidSet)
    requires index.Valid()
    ensures fresh(result) && result.Valid()
    ensures (forall o :: o in result.repr ==> fresh(o)) && forall u :: u in result.members ==> fresh(u)
    ensures Ids(result.Map()) == IdsOf(Kept(Log(index.blocks), offset))
  {
    hide *;
    result := new GtidSet();
    var seg := index.lastseg;
    ghost var j: nat, bs := |index.blocks|, index.blocks;
    StartGather(index, offset, result);
    while seg != null
      invariant index.Valid() && result.Valid() && Foreign(index, result) && index.blocks == bs && GoodBlocks(bs)
      invariant (forall o :: o in result.repr ==> fresh(o)) && forall u :: u in result.members ==> fresh(u)
      invariant fresh(result) && j <= |bs|
      invariant seg != null ==> Place(index, seg, j) && Gathered(bs, offset, j, Ids(result.Map()))
      invariant seg == null ==> Ids(result.Map()) == IdsOf(Kept(Log(bs), offset))
      decreases if seg == null then 0 else j + 1
    {
      seg := GatherSegment(index, offset, result, seg, j, bs);
      j := j - 1;
    }
  }

  lemma StartGather(index: GtidSeq, offset: int, result: GtidSet)
    requires index.Valid() && result !in index.arrays && result.repr == {} && result.members == {} && result.entries == []
    ensures Foreign(index, result) && GoodBlocks(index.blocks) && Place(index, index.lastseg, |index.blocks|)
    ensures Gathered(index.blocks, offset, |index.blocks|, Ids(result.Map()))
    ensures index.lastseg == null ==> Ids(result.Map()) == IdsOf(Kept(Log(index.blocks), offset))
  {
    Begins(index);
    AtPlace(index, index.lastseg, |index.blocks|);
    assert Ids(result.Map()) == {};
    GatherStarts(index.blocks, offset);
    if index.lastseg == null {
      GatherIsComplete(index.blocks, offset, {});
    }
  }

  method GatherSegment(index: GtidSeq, from: int, result: GtidSet, seg: Segment, ghost j: nat, ghost bs: seq<Block>)
    returns (next: Segment?)
    requires index.Valid() && result.Valid() && Foreign(index, result) && index.blocks == bs && GoodBlocks(bs) && j <= |bs|
    requires Place(index, seg, j) && Gathered(bs, from, j, Ids(result.Map()))
    modifies result, result.repr, result.members`next
    ensures index.Valid() && result.Valid() && Foreign(index, result) && index.blocks == bs && 0 < j
    ensures forall o :: o in result.repr ==> o in old(result.repr) || fresh(o)
    ensures forall u :: u in result.members ==> u in old(result.members) || fresh(u)
    ensures next != null ==> Place(index, next, j - 1) && Gathered(bs, from, j - 1, Ids(result.Map()))
    ensures next == null ==> Ids(result.Map()) == IdsOf(Kept(Log(bs), from))
  {
    hide *;
    AtPlace(index, seg, j);
    SegmentHolds(seg, bs[j - 1]);
    var startOffset := seg.baseOffset + seg.deltas[seg.tgno] as int;
    if startOffset >= from {
      GatherGoesOn(bs, from, j, Ids(result.Map()));
      next := GatherWhole(index, result, seg, seg.baseGno + seg.tgno, seg.baseGno + seg.ngno - 1, from, j, bs);
    } else {
      GatherPart(index, from, result, seg, j, bs);
      next := null;
    }
  }

  method GatherWhole(index: GtidSeq, result: GtidSet, seg: Segment, start: int, end: int, ghost from: int,
                     ghost j: nat, ghost bs: seq<Block>) returns (next: Segment?)
    requires index.Valid() && result.Valid() && Foreign(index, result) && index.blocks == bs && GoodBlocks(bs) && 0 < j <= |bs|
    requires Place(index, seg, j) && GNO_INITIAL <= start <= end < GNO_MAX
    requires Gathered(bs, from, j - 1, Ids(result.Map()) + RangeIds(seg.uuid, start, end))
    modifies result, result.repr, result.members`next
    ensures index.Valid() && result.Valid() && Foreign(index, result) && index.blocks == bs
    ensures forall o :: o in result.repr ==> o in old(result.repr) || fresh(o)
    ensures forall u :: u in result.members ==> u in old(result.members) || fresh(u)
    ensures next != null ==> Place(index, next, j - 1) && Gathered(bs, from, j - 1, Ids(result.Map()))
    ensures next == null ==> Ids(result.Map()) == IdsOf(Kept(Log(bs), from))
  {
    assert ValidRange(start, end);
    hide *;
    Collect(index, result, seg.uuid, start, end);
    AtPlace(index, seg, j);
    next := seg.prev;
    AtPlace(index, next, j - 1);
    if next == null {
      GatherIsComplete(bs, from, Ids(result.Map()));
    }
  }

  // Only the gnos from the offset on; the scan is over, and there may be none.
  method GatherPart(index: GtidSeq, from: int, result: GtidSet, seg: Segment, ghost j: nat, ghost bs: seq<Block>)
    requires index.Valid() && result.Valid() && Foreign(index, result) && index.blocks == bs && GoodBlocks(bs) && 0 < j <= |bs|
    requires Place(index, seg, j) && Gathered(bs, from, j, Ids(result.Map())) && seg.tgno < seg.deltas.Length
    requires seg.baseOffset + seg.deltas[seg.tgno] as int < from
    modifies result, result.repr, result.members`next
    ensures index.Valid() && result.Valid() && Foreign(index, result) && index.blocks == bs
    ensures forall o :: o in result.repr ==> o in old(result.repr) || fresh(o)
    ensures forall u :: u in result.members ==> u in old(result.members) || fresh(u)
    ensures Ids(result.Map()) == IdsOf(Kept(Log(bs), from))
  {
    hide *;
    AtPlace(index, seg, j);
    SegmentHolds(seg, bs[j - 1]);
    var l := seg.Search(from, bs[j - 1]);
    AtPlace(index, seg, j);
    SegmentHolds(seg, bs[j - 1]);
    GatherCuts(bs, from, j, Ids(result.Map()), l);
    Collect(index, result, seg.uuid, seg.baseGno + l, seg.baseGno + seg.ngno - 1);
  }

  lemma GatherCuts(bs: seq<Block>, from: int, j: nat, ids: set<Id>, l: nat)
    requires GoodBlocks(bs) && 0 < j <= |bs| && Gathered(bs, from, j, ids) && Good(bs[j - 1])
    requires bs[j - 1].baseOffset + bs[j - 1].deltas[bs[j - 1].tgno] < from
    requires bs[j - 1].tgno <= l <= |bs[j - 1].deltas|
    requires l < |bs[j - 1].deltas| ==> bs[j - 1].baseOffset + bs[j - 1].deltas[l] >= from
    requires l > bs[j - 1].tgno ==> bs[j - 1].baseOffset + bs[j - 1].deltas[l - 1] < from
    ensures var lo, hi := bs[j - 1].baseGno + l, bs[j - 1].baseGno + |bs[j - 1].deltas| - 1;
            ids + (if ValidRange(lo, hi) then RangeIds(bs[j - 1].uuid, lo, hi) else {}) == IdsOf(Kept(Log(bs), from))
  {
    var b := bs[j - 1];
    assert Cutoff(b, from, l) && b.tgno < l;
    assert l == |b.deltas| ==> RangeIds(b.uuid, b.baseGno + l, b.baseGno + |b.deltas| - 1) == {};
    assert ValidRange(b.baseGno + l, b.baseGno + |b.deltas| - 1) <==> l < |b.deltas|;
    hide Gathered, Log, GoodBlocks, RangeIds, Cutoff, IdsOf, Kept, ValidRange;
    GatherEnds(bs, from, j, ids, l);
  }
}
