/** Feeding the stream together with its index, and whether what is indexed is still in the backlog. */
module Feeds {
  import opened Analysis
  import opened GtidSeqs
  import GtidSeqScans
  import opened Intervals
  import opened ReplModes
  import opened SeqLogs
  import opened SeqQueries
  import opened Tables

  // All that is logged lies at offsets lo to hi.
  ghost predicate Within(log: seq<LogEntry>, lo: int, hi: int) {
    forall i :: 0 <= i < |log| ==> lo <= log[i].offset <= hi
  }

  lemma {:induction false} KeptIsWithin(log: seq<LogEntry>, until: int, lo: int, hi: int)
    requires Within(log, lo, hi)
    ensures Within(Kept(log, until), until, hi)
  {
    if log != [] {
      var n := |log| - 1;
      KeptIsWithin(log[..n], until, lo, hi);
    }
  }

  // A command with a gno: it is logged, it is fed, and then the index is trimmed to the backlog.
  method FeedIndexed(stream: ReplStream, index: GtidSeq, id: Id, offset: int, n: nat, kept: nat, ghost lo: int)
    requires stream.Valid() && stream.hasBacklog && kept <= stream.histlen + n
    requires index.Valid() && GNO_INITIAL <= id.gno < GNO_MAX && stream !in index.members + index.arrays
    requires Log(index.blocks) != [] ==> Log(index.blocks)[|Log(index.blocks)| - 1].offset < offset
    requires Within(Log(index.blocks), lo, stream.masterOffset) && lo <= offset <= stream.masterOffset + n
    modifies stream`masterOffset, stream`backlogOff, stream`histlen, stream`written
    modifies index, index.members, index.arrays
    ensures stream.Valid() && stream.masterOffset == old(stream.masterOffset) + n && stream.histlen == kept
    ensures index.Valid() && Within(Log(index.blocks), stream.backlogOff, stream.masterOffset)
    ensures (forall s :: s in index.members ==> s in old(index.members) || fresh(s))
    ensures forall o :: o in index.arrays ==> o in old(index.arrays) || fresh(o)
    ensures Log(index.blocks) == Kept(old(Log(index.blocks)) + [LogEntry(id.uuid, id.gno, offset)], stream.backlogOff)
  {
    hide *;
    GtidSeqScans.Begins(index);
    ghost var log := Log(index.blocks) + [LogEntry(id.uuid, id.gno, offset)];
    MoreWithin(Log(index.blocks), LogEntry(id.uuid, id.gno, offset), lo, stream.masterOffset, stream.masterOffset + n);
    index.Append(id.uuid, id.gno, offset);
    stream.Feed(n, kept);
    index.Trim(stream.backlogOff);
    KeptIsWithin(log, stream.backlogOff, lo, stream.masterOffset);
  }

  lemma MoreWithin(log: seq<LogEntry>, e: LogEntry, lo: int, hi: int, end: int)
    requires Within(log, lo, hi) && lo <= e.offset <= end && hi <= end
    ensures Within(log + [e], lo, end)
  {
  }

  // A command without a gno moves the backlog and leaves the index. What is indexed is still within exactly if
  // the first entry is.
  lemma PlainFeed(log: seq<LogEntry>, lo: int, hi: int, backlogOff: int)
    requires Ascending(log) && Within(log, lo, hi)
    ensures Within(log, backlogOff, hi) <==> log == [] || log[0].offset >= backlogOff
  {
    if log != [] && log[0].offset >= backlogOff {
      forall i | 0 <= i < |log|
        ensures log[i].offset >= backlogOff
      {
        assert i > 0 ==> Before(log, 0, i);
      }
    }
  }

  // Every continue point of an xsync request lies in the backlog, or at its end, exactly if all that is indexed does.
  lemma PointIsInBacklog(stream: ReplStream, log: seq<LogEntry>)
    requires stream.Valid() && stream.hasBacklog && stream.mode == Xsync && stream.backlogOff >= 0
    requires Ascending(log) && Within(log, 0, stream.masterOffset)
    ensures (forall request :: stream.backlogOff <= Point(true, log, request, stream) <= stream.End()) <==>
              Within(log, stream.backlogOff, stream.masterOffset)
  {
    if Within(log, stream.backlogOff, stream.masterOffset) {
      forall request
        ensures stream.backlogOff <= Point(true, log, request, stream) <= stream.End()
      {
        var k := Start(log, request);
      }
    }
    PlainFeed(log, 0, stream.masterOffset, stream.backlogOff);
    if forall request :: stream.backlogOff <= Point(true, log, request, stream) <= stream.End() {
      assert stream.backlogOff <= Point(true, log, {}, stream);
      StartIs(log, {}, 0);
    }
  }

  // A request that begins at an entry the backlog has dropped. The master knows A:1 and A:2 and the replica A:1, so
  // they are related; a command without a gno has taken the place of A:2 in a backlog of one byte.
  method PlainFeedLosesPoint() returns (stream: ReplStream, index: GtidSeq)
    ensures stream.Valid() && stream.hasBacklog && stream.mode == Xsync && index.Valid()
    ensures Related(map["A" := {1, 2}], map[], map["A" := {1}])
    ensures Point(true, LogOf(index), {Id("A", 1)}, stream) == 2 < stream.backlogOff
  {
    hide GtidSeq.Valid, ReplStream.Valid, LogOf, Start;
    stream, index := TwoCommands();
    stream.Feed(1, 1);
    BothKnowA();
  }

  // The stream after A:1 and A:2, of one byte each.
  method TwoCommands() returns (stream: ReplStream, index: GtidSeq)
    ensures fresh(stream) && fresh(index) && stream !in index.members + index.arrays
    ensures stream.Valid() && stream.hasBacklog && stream.mode == Xsync && index.Valid() && stream.masterOffset == 2
    ensures stream.histlen == 2 && NewIdsStart(LogOf(index))
  {
    hide GtidSeq.Valid, ReplStream.Valid, Kept, Within, LogOf, NewIdsStart;
    stream := new ReplStream();
    stream.ResetToXsync("", 0);
    stream.CreateBacklog();
    index := new GtidSeq();
    EmptyLog(index);
    FeedIndexed(stream, index, Id("A", 1), 1, 1, 1, 1);
    GtidSeqScans.Begins(index);
    AtFirstByte(stream);
    OneEntryKept();
    FeedIndexed(stream, index, Id("A", 2), 2, 1, 2, 1);
    GtidSeqScans.Begins(index);
    AtFirstByte(stream);
    TwoEntriesKept(index);
  }

  lemma AtFirstByte(stream: ReplStream)
    requires stream.Valid() && stream.hasBacklog
    ensures stream.backlogOff == stream.masterOffset + 1 - stream.histlen
  {
  }

  lemma BothKnowA()
    ensures Related(map["A" := {1, 2}], map[], map["A" := {1}])
  {
    var executed: Table, lost: Table := map["A" := {1, 2}], map[];
    assert "A" in executed.Keys + lost.Keys;
  }

  lemma EmptyLog(index: GtidSeq)
    requires index.blocks == []
    ensures Log(index.blocks) == [] && Within([], 1, 0)
  {
  }

  lemma OneEntryKept()
    ensures Kept([] + [LogEntry("A", 1, 1)], 1) == [LogEntry("A", 1, 1)] && Within([LogEntry("A", 1, 1)], 1, 1)
  {
    var e := [LogEntry("A", 1, 1)];
    assert [] + e == e && e[..0] == [] && Kept([], 1) == [];
  }

  lemma TwoEntriesKept(index: GtidSeq)
    requires GoodBlocks(index.blocks) && Log(index.blocks) == Kept([LogEntry("A", 1, 1)] + [LogEntry("A", 2, 2)], 1)
    ensures NewIdsStart(LogOf(index))
  {
    var log := [LogEntry("A", 1, 1), LogEntry("A", 2, 2)];
    OneEntryKept();
    assert [LogEntry("A", 1, 1)] + [LogEntry("A", 2, 2)] == log && log[..1] == [] + [LogEntry("A", 1, 1)];
    assert Kept(log, 1) == Kept(log[..1], 1) + [log[1]];
    assert !Unseen({Id("A", 1)}, log[0]) && Unseen({Id("A", 1)}, log[1]);
    StartIs(log, {Id("A", 1)}, 1);
  }

  ghost predicate NewIdsStart(log: seq<LogEntry>) {
    Start(log, {Id("A", 1)}) == 1 && |log| == 2 && log[1].offset == 2
  }
}
