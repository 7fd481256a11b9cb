/** What the answers of a master mean for its stream: which bytes follow, in which mode, and how they are published. */
module Answers {
  import opened Analysis
  import opened GtidSeqs
  import opened GtidSets
  import opened Handshake
  import opened Numbering
  import opened Replies
  import opened ReplModes
  import opened SeqLogs
  import opened SeqQueries
  import opened Tables

  // ----- An xsync request -----------------------------------------------------------------------------------

  // Before the switch, the stream ends there and was all written in xsync mode; the byte before it was published at
  // reploff under the id of that mode.
  lemma BeforeSwitch(q: Question, indexed: bool, log: seq<LogEntry>, stream: ReplStream,
                     result: SyncResult, cont: set<Id>, deltaLost: set<Id>)
    requires stream.Valid() && Answered(q, indexed, log, stream, result, cont, deltaLost) && !result.Full?
    ensures result.XContinue? || result.Continue?
    ensures result.offset < stream.from ==>
              && result.XContinue? && result.limit > 0 && result.offset + result.limit == stream.from
              && stream.WrittenIn(result.offset, result.offset + result.limit, Xsync)
              && stream.WrittenIn(stream.from, stream.End(), stream.mode) && stream.mode == Psync
              && stream.prev.PrevXsync? && result.replid == stream.prev.replid
              && result.reploff + result.limit == stream.prev.delta + (stream.from - 1)
  {
  }

  // After the switch there is no limit. Either all that follows was written in xsync mode, and a replica that is at
  // reploff there ends at the published offset of the master; or psync mode begins just there.
  lemma AfterSwitch(q: Question, indexed: bool, log: seq<LogEntry>, stream: ReplStream,
                    result: SyncResult, cont: set<Id>, deltaLost: set<Id>)
    requires stream.Valid() && Answered(q, indexed, log, stream, result, cont, deltaLost)
    requires (result.XContinue? || result.Continue?) && result.offset >= stream.from
    ensures result.limit == 0 && result.replid == stream.replid
    ensures result.reploff + (stream.masterOffset - (result.offset - 1)) == stream.masterOffset + stream.delta
    ensures result.XContinue? ==> stream.mode == Xsync && stream.WrittenIn(result.offset, stream.End(), Xsync)
    ensures result.Continue? ==>
              && stream.mode == Psync && stream.prev.PrevXsync? && result.offset == stream.from
              && stream.WrittenIn(result.offset, stream.End(), Psync)
  {
  }

  // The index belongs to the stream.
  ghost predicate Indexes(log: seq<LogEntry>, stream: ReplStream)
    reads stream
  {
    && Ascending(log)
    && forall i :: 0 <= i < |log| ==>
      0 <= log[i].offset <= stream.masterOffset && (stream.mode != Xsync ==> log[i].offset < stream.from)
  }

  // The stream continues at a command, number k: from there on all that is indexed is new, and the command before is
  // not. If nothing is new it continues at the end of the stream in xsync mode, or where psync mode began.
  lemma PointIsFirstNew(q: Question, indexed: bool, log: seq<LogEntry>, stream: ReplStream,
                        result: SyncResult, cont: set<Id>, deltaLost: set<Id>) returns (k: nat)
    requires Answered(q, indexed, log, stream, result, cont, deltaLost) && (result.XContinue? || result.Continue?)
    requires Indexes(log, stream) && (indexed || (log == [] && stream.mode == Xsync))
    ensures k <= |log| && forall i :: 0 <= i < |log| ==> (log[i].offset >= result.offset <==> i >= k)
    ensures (forall i :: k <= i < |log| ==> Unseen(q.request, log[i])) && (k > 0 ==> !Unseen(q.request, log[k - 1]))
    ensures k < |log| ==> result.offset == log[k].offset
    ensures k == |log| ==> result.offset == if stream.mode == Xsync then stream.masterOffset + 1 else stream.from
    ensures IdsOf(Kept(log, result.offset)) == NewIds(log, q.request)
  {
    PointCases(q, indexed, log, stream, result, cont, deltaLost);
    hide *;
    k := Start(log, q.request);
    FromNumber(log, k, result.offset);
  }

  lemma PointCases(q: Question, indexed: bool, log: seq<LogEntry>, stream: ReplStream,
                   result: SyncResult, cont: set<Id>, deltaLost: set<Id>)
    requires Answered(q, indexed, log, stream, result, cont, deltaLost) && (result.XContinue? || result.Continue?)
    requires Indexes(log, stream) && (indexed || (log == [] && stream.mode == Xsync))
    ensures var k := Start(log, q.request);
            && Ascending(log) && NewIds(log, q.request) == IdsOf(log[k..])
            && (k < |log| ==> result.offset == log[k].offset)
            && (k == |log| ==>
                  result.offset == (if stream.mode == Xsync then stream.masterOffset + 1 else stream.from)
                  && forall i :: 0 <= i < |log| ==> log[i].offset < result.offset)
  {
    hide *;
    OffsetIsPoint(q, indexed, log, stream, result, cont, deltaLost);
    PointIs(indexed, log, q.request, stream);
  }

  lemma OffsetIsPoint(q: Question, indexed: bool, log: seq<LogEntry>, stream: ReplStream,
                      result: SyncResult, cont: set<Id>, deltaLost: set<Id>)
    requires Answered(q, indexed, log, stream, result, cont, deltaLost) && (result.XContinue? || result.Continue?)
    ensures result.offset == Point(indexed, log, q.request, stream)
  {
    hide Point, Gap, NewIds;
  }

  lemma PointIs(indexed: bool, log: seq<LogEntry>, request: set<Id>, stream: ReplStream)
    requires Indexes(log, stream) && (indexed || (log == [] && stream.mode == Xsync))
    ensures var k, o := Start(log, request), Point(indexed, log, request, stream);
            && Ascending(log) && NewIds(log, request) == IdsOf(log[k..])
            && (k < |log| ==> o == log[k].offset)
            && (k == |log| ==>
                  o == (if stream.mode == Xsync then stream.masterOffset + 1 else stream.from)
                  && forall i :: 0 <= i < |log| ==> log[i].offset < o)
  {
    hide Ascending, IdsOf, Start;
  }

  lemma FromNumber(log: seq<LogEntry>, k: nat, offset: int)
    requires Ascending(log) && k <= |log|
    requires k < |log| ==> offset == log[k].offset
    requires k == |log| ==> forall i :: 0 <= i < |log| ==> log[i].offset < offset
    ensures Kept(log, offset) == log[k..]
    ensures forall i :: 0 <= i < |log| ==> (log[i].offset >= offset <==> i >= k)
  {
    hide Kept;
    forall i | 0 <= i < |log|
      ensures log[i].offset >= offset <==> i >= k
    {
      assert k < |log| && i < k ==> Before(log, i, k);
      assert k < |log| && k < i ==> Before(log, k, i);
    }
    KeptSuffix(log, offset, k);
  }

  // ----- A psync request ------------------------------------------------------------------------------------

  // The same letters, small or capital.
  lemma SameReplidIs(a: string, b: string)
    ensures SameReplid(a, b) <==>
              |a| == |b| && forall i :: 0 <= i < |a| ==>
                a[i] == b[i] || ('A' <= a[i] <= 'Z' && b[i] == a[i] + 32 as char) || ('A' <= b[i] <= 'Z' && a[i] == b[i] + 32 as char)
  {
  }

  // Which psync requests a master in xsync mode refuses: all but those from the psync stretch before, in the backlog and
  // under one of its ids.
  lemma PsyncRefused(stream: ReplStream, log: seq<LogEntry>, known: set<Id>, replid: string, offset: int,
                     result: SyncResult, cont: set<Id>, deltaLost: set<Id>)
    requires replid != "" && PsyncAnswered(stream, log, known, replid, offset, result, cont, deltaLost)
    requires stream.Valid() && stream.mode == Xsync
    ensures !result.Full? <==>
              && replid[0] != '?' && stream.hasBacklog && stream.backlogOff <= offset <= stream.End()
              && stream.prev.PrevPsync? && stream.prev.from <= offset <= stream.from
              && (SameReplid(replid, stream.prev.replid)
                  || (SameReplid(replid, stream.prev.replid2) && offset <= stream.prev.secondOffset))
    ensures !result.Full? ==> if offset < stream.from then result.Continue? else result.XContinue?
  {
  }

  // In psync mode those of the current stretch are left to Redis, and all others are refused.
  lemma PsyncLeft(stream: ReplStream, log: seq<LogEntry>, known: set<Id>, replid: string, offset: int,
                  result: SyncResult, cont: set<Id>, deltaLost: set<Id>)
    requires replid != "" && PsyncAnswered(stream, log, known, replid, offset, result, cont, deltaLost)
    requires stream.Valid() && stream.mode == Psync
    ensures result == Nop || result == Full
    ensures result == Nop <==>
              replid[0] != '?' && stream.hasBacklog && stream.backlogOff <= offset <= stream.End() && stream.from <= offset
  {
  }

  // Before the switch the stream ends there and was all written in psync mode, under the id of that mode. At the
  // switch it goes on in xsync mode: what the replica is told and what follows is all that the master knows, and it
  // ends at the published offset of the master.
  lemma PsyncContinues(stream: ReplStream, log: seq<LogEntry>, known: set<Id>, replid: string, offset: int,
                       result: SyncResult, cont: set<Id>, deltaLost: set<Id>)
    requires replid != "" && PsyncAnswered(stream, log, known, replid, offset, result, cont, deltaLost)
    requires stream.Valid() && stream.mode == Xsync && IdsOf(log) <= known
    ensures result.Continue? ==>
              && result.offset == offset && result.limit > 0 && offset + result.limit == stream.from
              && stream.prev.PrevPsync? && result.replid == stream.prev.replid
              && stream.WrittenIn(offset, offset + result.limit, Psync)
              && stream.WrittenIn(stream.from, stream.End(), Xsync)
    ensures result.XContinue? ==>
              && result.offset == offset == stream.from && result.limit == 0 && result.replid == stream.replid
              && stream.WrittenIn(offset, stream.End(), Xsync)
              && result.reploff + (stream.masterOffset - (offset - 1)) == stream.masterOffset + stream.delta
              && cont + IdsOf(Kept(log, offset)) == known && cont !! IdsOf(Kept(log, offset)) && deltaLost == {}
  {
    KeptWithin(log, offset);
  }

  lemma {:induction false} KeptWithin(log: seq<LogEntry>, until: int)
    ensures IdsOf(Kept(log, until)) <= IdsOf(log)
  {
    if log != [] {
      var p, e := log[..|log| - 1], log[|log| - 1];
      KeptWithin(p, until);
      assert log == p + [e];
      IdsConcat(p, [e]);
      IdsConcat(Kept(p, until), [e]);
      assert Kept(p, until) + [] == Kept(p, until);
    }
  }

  // ----- Around a switch ------------------------------------------------------------------------------------

  // The stream is not part of the data of the server.
  ghost predicate Outside(stream: ReplStream, server: Numbering.Server, index: GtidSeq)
    reads server, server.executed`repr, server.lost`repr, index`arrays
  {
    stream !in server.executed.repr && stream !in server.lost.repr && stream !in index.arrays
  }

  // A server in psync mode goes over to xsync mode, and then a replica asks to continue from anywhere in the psync
  // stretch. With the replication id that the server had, it is sent the rest of the stretch; if it has all of it,
  // it goes on in xsync mode. The second id is as good as far as it reaches, and any other is refused.
  method SwitchAndAskPsync(server: Numbering.Server, index: GtidSeq, stream: ReplStream, id: string, reploff: int,
                           replid: string, offset: int)
    returns (result: SyncResult, cont: GtidSet?, deltaLost: GtidSet?)
    requires server.Sound() && index.Valid() && stream.Valid() && Outside(stream, server, index)
    requires stream.mode == Psync && stream.hasBacklog && replid != "" && replid[0] != '?'
    requires stream.from <= offset && stream.backlogOff <= offset <= stream.masterOffset + 1
    modifies stream
    ensures !result.Full? <==>
              SameReplid(replid, old(stream.replid))
              || (SameReplid(replid, old(stream.replid2)) && offset <= old(stream.secondOffset))
    ensures !result.Full? ==>
              result == if offset <= old(stream.masterOffset)
                        then Continue(offset, old(stream.masterOffset) + 1 - offset, old(stream.replid), -1)
                        else XContinue(offset, 0, id, reploff)
  {
    hide GtidSet.Valid, GtidSet.Listed, GtidSeq.Valid, Numbering.Server.Sound, Ids, IdsIn, LogOf, Kept, IdsOf;
    stream.SwitchToXsync(id, reploff);
    result, cont, deltaLost := AnaPsyncRequest(server, index, stream, replid, offset);
  }

  // A server in xsync mode goes over to psync mode at the same offset, and then a replica asks to continue. If its
  // continue point lies before the switch it is sent the rest of the xsync stretch under the id that the server had; if
  // it lies at the switch, it goes on in psync mode.
  method SwitchAndAskXsync(server: Numbering.Server, index: GtidSeq, stream: ReplStream, id: string, interested: string,
                           slave: GtidSet, slaveLost: GtidSet, maxgap: int)
    returns (result: SyncResult, cont: GtidSet?, deltaLost: GtidSet?)
    requires server.Sound() && index.Valid() && stream.Valid() && Outside(stream, server, index)
    requires slave.Valid() && slaveLost.Valid() && stream !in slave.repr && stream !in slaveLost.repr
    requires stream.mode == Xsync && stream.masterOffset >= 0
    modifies stream
    ensures result.Full? || result.XContinue? || result.Continue?
    ensures result.XContinue? ==>
              && result.limit == old(stream.masterOffset) + 1 - result.offset > 0 && result.replid == old(stream.replid)
              && stream.WrittenIn(result.offset, result.offset + result.limit, Xsync)
    ensures result.Continue? ==> result == Continue(old(stream.masterOffset) + 1, 0, id, old(stream.masterOffset))
  {
    hide GtidSet.Valid, GtidSet.Listed, GtidSeq.Valid, Numbering.Server.Sound, Ids, IdsIn, LogOf, NewIds, Gap, Related;
    stream.SwitchToPsync(id, stream.masterOffset);
    result, cont, deltaLost := AnaXsyncRequest(server, index, stream, interested, slave, slaveLost, maxgap);
  }

  // ----- Both ends ------------------------------------------------------------------------------------------

  // A master in xsync mode has accepted a request; the replica reads the reply and then has the rest of the stream. Both
  // publish the same offset under the same replication id then.
  method ReadAndCatchUp(server: Numbering.Server, stream: ReplStream, cont: GtidSet, master: ReplStream, reply: SyncResult,
                        kept: nat, ghost q: Question, ghost indexed: bool, ghost log: seq<LogEntry>,
                        ghost continued: set<Id>, ghost deltaLost: set<Id>)
    requires server.Valid() && stream.Valid() && stream.mode == Xsync && cont.Valid() && Clear(server, stream)
    requires master != stream && Clear(server, master) && master.Valid() && master.mode == Xsync && master.replid != ""
    requires Answered(q, indexed, log, master, reply, continued, deltaLost) && reply.XContinue? && reply.offset >= master.from
    requires Indexes(log, master) && (indexed || log == []) && reply.reploff >= 0
    requires stream.hasBacklog && kept <= stream.histlen + (master.masterOffset + 1 - reply.offset)
    modifies server.lost, server.lost.repr, server.lost.members`next, server.executed, server.executed.repr, stream
    ensures stream.Valid() && stream.mode == Xsync && stream.replid == master.replid
    ensures stream.masterOffset + stream.delta == master.masterOffset + master.delta
  {
    hide GtidSet.Valid, GtidSet.Listed, GtidSet.Map, GtidSet.Total, Ids, Answered, Indexes, Ascending, Unseen, NewIds, Kept;
    hide Numbering.Server.Valid, Numbering.Server.Sound, ReplStream.WrittenIn, IdsOf;
    AfterSwitch(q, indexed, log, master, reply, continued, deltaLost);
    var k := PointIsFirstNew(q, indexed, log, master, reply, continued, deltaLost);
    InStream(log, master, k);
    var updated := ReadXcontinue(server, stream, cont, reply.replid, reply.reploff);
    stream.Feed(master.masterOffset + 1 - reply.offset, kept);
  }

  lemma InStream(log: seq<LogEntry>, stream: ReplStream, k: nat)
    requires Indexes(log, stream)
    ensures k < |log| ==> log[k].offset <= stream.masterOffset
  {
  }
}
