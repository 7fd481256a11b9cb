/** How a master answers a request to continue: on its sets, its sequence index and its replication stream. */
module Analysis {
  import opened GtidSeqs
  import GtidSeqScans
  import opened GtidSets
  import opened GtidSetAlgebra
  import opened Handshake
  import opened Numbering
  import opened ReplModes
  import opened SeqLogs
  import opened SeqQueries
  import opened Tables
  import opened UuidSets

  // All of a set has been allocated in this call.
  twostate predicate New(new s: GtidSet)
    reads s`repr, s`members
  {
    fresh(s) && (forall o :: o in s.repr ==> fresh(o)) && forall u :: u in s.members ==> fresh(u)
  }

  // ----- Computing with sets ------------------------------------------------------------------------------

  // A copy of a without the ids of b.
  method Minus(a: GtidSet, b: GtidSet) returns (d: GtidSet)
    requires a.Valid() && b.Valid()
    ensures d.Valid() && d.current == null && d.curnext == 0 && New(d)
    ensures Ids(d.Map()) == Ids(a.Map()) - Ids(b.Map())
  {
    hide GtidSet.Valid, GtidSet.Listed, GtidSet.Total, Ids, Difference, ToTable;
    DifferenceIds(a.Map(), b.Map());
    d := Dup(a);
    d.Pointers();
    d.Outside();
    var removed := Diff(d, b);
  }

  // serverGtidSetGet: all that the server knows.
  method GetKnown(server: Numbering.Server) returns (all: GtidSet)
    requires server.Sound()
    ensures all.Valid() && all.current == null && New(all)
    ensures all.Map() == Union(server.executed.Map(), server.lost.Map())
  {
    hide GtidSet.Valid, GtidSet.Listed, GtidSet.Total, Ids, Union, ToTable;
    all := Dup(server.executed);
    all.Pointers();
    all.Outside();
    var added := Merge(all, server.lost);
  }

  // ----- XSYNC --------------------------------------------------------------------------------------------

  datatype SyncResult =
    | Nop
    | Full
    | XContinue(offset: int, limit: int, replid: string, reploff: int)
    | Continue(offset: int, limit: int, replid: string, reploff: int)

  const UUID_INTERESTED_FULLRESYNC := "?"

  // The log that a valid index stands for; no index is as good as an empty one.
  ghost function LogOf(index: GtidSeq?): seq<LogEntry>
    reads if index == null then {} else {index}
  {
    if index == null || !GoodBlocks(index.blocks) then [] else Log(index.blocks)
  }

  // What is new to the request.
  ghost function NewIds(log: seq<LogEntry>, req: set<Id>): set<Id> {
    IdsOf(log[Start(log, req)..])
  }

  // Where the stream continues: at the first new id; if there is none, at the end of the stream in xsync mode,
  // or where psync mode began. Without an index it is always the end.
  ghost function Point(indexed: bool, log: seq<LogEntry>, req: set<Id>, stream: ReplStream): int
    reads stream
  {
    var k := Start(log, req);
    if indexed && k < |log| && log[k].offset >= 0 then log[k].offset
    else if !indexed || stream.mode == Xsync then stream.masterOffset + 1
    else stream.from
  }

  method FindPoint(index: GtidSeq?, stream: ReplStream, slave: GtidSet) returns (offset: int, xsync: GtidSet)
    requires (index != null ==> index.Valid()) && slave.Valid()
    ensures xsync.Valid() && New(xsync) && Ids(xsync.Map()) == NewIds(LogOf(index), Ids(slave.Map()))
    ensures offset == Point(index != null, LogOf(index), Ids(slave.Map()), stream)
  {
    if index != null { GtidSeqScans.Begins(index); }
    hide GtidSet.Valid, GtidSet.Listed, GtidSeq.Valid, GtidSet.Map, Ids, Log, IdsOf, GoodBlocks;
    if index == null {
      xsync := new GtidSet();
      NoIds(xsync, Ids(slave.Map()));
      offset := stream.masterOffset + 1;
    } else {
      offset, xsync := GtidSeqScans.Xsync(index, slave);
      if offset < 0 {
        offset := if stream.mode == Mode.Xsync then stream.masterOffset + 1 else stream.from;
      }
    }
  }

  lemma NoIds(s: GtidSet, req: set<Id>)
    requires s.entries == []
    ensures Ids(s.Map()) == NewIds([], req)
  {
  }

  method CountGap(executed: GtidSet, xsync: GtidSet, slave: GtidSet, slaveLost: GtidSet) returns (gap: int)
    requires executed.Valid() && xsync.Valid() && slave.Valid() && slaveLost.Valid()
    ensures gap == Gap(Ids(executed.Map()), Ids(xsync.Map()), Ids(slave.Map()), Ids(slaveLost.Map()))
  {
    hide GtidSet.Valid, GtidSet.Listed, GtidSet.Map, GtidSet.Total, Ids;
    var mexec := Minus(executed, xsync);
    var sexec := Minus(slave, slaveLost);
    gap := CountDifferences(mexec, sexec);
  }

  method CountDifferences(a: GtidSet, b: GtidSet) returns (n: int)
    requires a.Valid() && b.Valid()
    ensures n == |Ids(a.Map()) - Ids(b.Map())| + |Ids(b.Map()) - Ids(a.Map())|
  {
    hide GtidSet.Valid, GtidSet.Listed, GtidSet.Map, GtidSet.Total, Ids;
    var mgap := Minus(a, b);
    var sgap := Minus(b, a);
    var m := mgap.Count();
    var s := sgap.Count();
    n := m + s;
  }

  // The bytes from the offset on, or up to the switch, belong to the mode, or the mode ends there.
  ghost predicate Servable(stream: ReplStream, request: Mode, offset: int)
    requires request != Unset
    reads stream
  {
    || (request == stream.mode && stream.from <= offset)
    || (request == stream.prev.Mode() && (stream.prev.from <= offset < stream.from || offset == stream.from))
  }

  // The answer to an xsync request that is accepted at an offset: in the current mode the stream goes on; in
  // the previous one it ends at the switch; at the switch itself the replica is told to go on in psync mode.
  ghost function Accepted(stream: ReplStream, offset: int): SyncResult
    requires Servable(stream, Mode.Xsync, offset)
    reads stream
  {
    if stream.mode == Mode.Xsync && stream.from <= offset then
      XContinue(offset, 0, stream.replid, stream.CurReploff(offset - 1))
    else if offset < stream.from then
      XContinue(offset, stream.from - offset, stream.prev.replid, stream.PrevReploff(offset - 1))
    else
      Continue(offset, 0, stream.replid, offset - 1)
  }

  method Answer(stream: ReplStream, located: Located, offset: int) returns (result: SyncResult)
    requires Servable(stream, Mode.Xsync, offset) && stream.Valid() && !located.Invalid?
    requires located.InCur? <==> stream.mode == Mode.Xsync && stream.from <= offset
    requires located.InPrev? <==> stream.prev.Mode() == Mode.Xsync && stream.prev.from <= offset < stream.from
    requires located.AtSwitch? <==> stream.prev.Mode() == Mode.Xsync && offset == stream.from
    requires located.InPrev? ==> offset + located.limit == stream.from
    ensures result == Accepted(stream, offset)
  {
    if located.InPrev? {
      result := XContinue(offset, located.limit, stream.prev.replid, stream.PrevReploff(offset - 1));
    } else if located.AtSwitch? {
      result := Continue(offset, 0, stream.replid, offset - 1);
    } else {
      result := XContinue(offset, 0, stream.replid, stream.CurReploff(offset - 1));
    }
  }

  // What the two sides know and have asked, as plain sets.
  datatype Question = Question(known: set<Id>, executed: set<Id>, request: set<Id>, requestLost: set<Id>, maxgap: int)

  // The request is refused if its continue point is not in the backlog or not known to be in xsync mode, or if
  // the gap is too large. Otherwise it is accepted at that point, with the sets that both sides have to adopt.
  ghost predicate Answered(q: Question, indexed: bool, log: seq<LogEntry>, stream: ReplStream,
                           result: SyncResult, cont: set<Id>, deltaLost: set<Id>)
    reads stream
  {
    var xsync, offset := NewIds(log, q.request), Point(indexed, log, q.request, stream);
    if (stream.mode == Psync && offset < stream.backlogOff) || !Servable(stream, Mode.Xsync, offset)
       || Gap(q.executed, xsync, q.request, q.requestLost) > q.maxgap
    then result.Full?
    else
      && result == Accepted(stream, offset)
      && cont == Handshake.Continue(q.known, xsync)
      && deltaLost == MasterLost(q.request, cont)
  }

  // What makes an accepted answer right: the stream holds nothing that the replica knows or is told, so none of
  // it will be ignored; and once the master has added what it had lost, both sides are to know the same.
  lemma AnswerIsSafe(q: Question, indexed: bool, log: seq<LogEntry>, stream: ReplStream,
                     result: SyncResult, cont: set<Id>, deltaLost: set<Id>)
    requires Answered(q, indexed, log, stream, result, cont, deltaLost) && !result.Full?
    requires q.executed <= q.known && IdsOf(log) <= q.executed
    ensures NewIds(log, q.request) !! q.request + cont
    ensures q.known + deltaLost == q.request + cont + NewIds(log, q.request) && deltaLost == q.request - q.known
    ensures cont + NewIds(log, q.request) == q.known
    ensures Gap(q.executed, NewIds(log, q.request), q.request, q.requestLost) <= q.maxgap
  {
    NewIdsAreNew(log, q.request);
    hide NewIds, IdsOf, Gap;
    MasterAdds(q.executed, q.known, NewIds(log, q.request), q.request);
  }

  lemma NewIdsAreNew(log: seq<LogEntry>, request: set<Id>)
    ensures NewIds(log, request) !! request && NewIds(log, request) <= IdsOf(log)
  {
    var k := Start(log, request);
    hide IdsOf;
    ContinueIsNew(log, request, if k < |log| then log[k].offset else -1, NewIds(log, request));
    assert log == log[..k] + log[k..];
    IdsConcat(log[..k], log[k..]);
  }

  lemma MasterAdds(executed: set<Id>, known: set<Id>, xsync: set<Id>, request: set<Id>)
    requires xsync <= executed <= known && xsync !! request
    ensures var cont := Handshake.Continue(known, xsync);
            && xsync !! request + cont && MasterLost(request, cont) == request - known && cont + xsync == known
            && known + MasterLost(request, cont) == request + cont + xsync
  {
    var lost := known - executed;
    assert executed + lost == known;
    MasterAdjusts(executed, lost, xsync, request);
    assert executed + (lost + MasterLost(request, Handshake.Continue(known, xsync)))
        == known + MasterLost(request, Handshake.Continue(known, xsync));
  }

  ghost function IdsIn(s: GtidSet?): set<Id>
    reads if s == null then {} else {s}
  {
    if s == null then {} else Ids(s.Map())
  }

  lemma IdsInIs(s: GtidSet)
    ensures IdsIn(s) == Ids(s.Map())
  {
  }

  // Refuses, or accepts the request at its continue point with the sets the two sides have to adopt.
  method AnaXsyncRequest(server: Numbering.Server, index: GtidSeq?, stream: ReplStream, interested: string,
                         slave: GtidSet, slaveLost: GtidSet, maxgap: int)
    returns (result: SyncResult, cont: GtidSet?, deltaLost: GtidSet?)
    requires server.Sound() && (index != null ==> index.Valid()) && stream.Valid() && stream.mode != Unset
    requires slave.Valid() && slaveLost.Valid()
    ensures interested == UUID_INTERESTED_FULLRESYNC || !Related(server.executed.Map(), server.lost.Map(), slave.Map())
            ==> result.Full?
    ensures interested != UUID_INTERESTED_FULLRESYNC && Related(server.executed.Map(), server.lost.Map(), slave.Map())
            ==> Answered(Question(Ids(server.executed.Map()) + Ids(server.lost.Map()), Ids(server.executed.Map()),
                                  Ids(slave.Map()), Ids(slaveLost.Map()), maxgap),
                         index != null, LogOf(index), stream, result, IdsIn(cont), IdsIn(deltaLost))
    ensures !result.Full? ==> cont != null && cont.Valid() && deltaLost != null && deltaLost.Valid()
  {
    hide *;
    cont, deltaLost := null, null;
    if interested == UUID_INTERESTED_FULLRESYNC { return Full, null, null; }
    var known := GetKnown(server);
    RelatedInUnion(server.executed.Map(), server.lost.Map(), slave.Map());
    UnionIds(server.executed.Map(), server.lost.Map());
    var related := GtidSetAlgebra.Related(known, slave);
    if !related { return Full, null, null; }
    result, cont, deltaLost := AnaRelated(server, index, stream, known, slave, slaveLost, maxgap);
  }

  // Some uuid of the request is known to the master.
  ghost predicate Related(executed: Table, lost: Table, request: Table) {
    exists u :: u in executed.Keys + lost.Keys && u in request
  }

  lemma RelatedInUnion(executed: Table, lost: Table, request: Table)
    ensures Related(executed, lost, request) <==> exists u :: u in Union(executed, lost) && u in request
  {
    if exists u :: u in Union(executed, lost) && u in request {
      var u :| u in Union(executed, lost) && u in request;
      assert u in executed.Keys + lost.Keys;
    }
    if Related(executed, lost, request) {
      var u :| u in executed.Keys + lost.Keys && u in request;
      assert u in Union(executed, lost);
    }
  }

  method AnaRelated(server: Numbering.Server, index: GtidSeq?, stream: ReplStream, known: GtidSet,
                    slave: GtidSet, slaveLost: GtidSet, maxgap: int)
    returns (result: SyncResult, cont: GtidSet?, deltaLost: GtidSet?)
    requires server.Sound() && (index != null ==> index.Valid()) && stream.Valid() && stream.mode != Unset
    requires slave.Valid() && slaveLost.Valid() && known.Valid() && known.current == null
    ensures Answered(Question(Ids(known.Map()), Ids(server.executed.Map()), Ids(slave.Map()), Ids(slaveLost.Map()), maxgap),
                     index != null, LogOf(index), stream, result, IdsIn(cont), IdsIn(deltaLost))
    ensures !result.Full? ==> cont != null && cont.Valid() && deltaLost != null && deltaLost.Valid()
  {
    hide GtidSet.Valid, GtidSet.Listed, GtidSet.Map, GtidSet.Total, Ids, LogOf, NewIds, Point, Accepted, Gap, IdsIn;
    hide ReplStream.WrittenIn, GtidSeq.Valid;
    cont, deltaLost := null, null;
    var offset, xsync := FindPoint(index, stream, slave);
    if stream.mode == Psync && offset < stream.backlogOff { return Full, null, null; }
    var located := stream.Locate(Mode.Xsync, offset);
    if located.Invalid? { return Full, null, null; }
    result := Answer(stream, located, offset);
    var accept;
    accept, cont, deltaLost := Compare(known, server.executed, xsync, slave, slaveLost, maxgap);
    if !accept { return Full, null, null; }
  }

  // Computes the sets of the reply, and whether the gap is small enough.
  method Compare(known: GtidSet, executed: GtidSet, xsync: GtidSet, slave: GtidSet, slaveLost: GtidSet, maxgap: int)
    returns (accept: bool, cont: GtidSet, deltaLost: GtidSet)
    requires known.Valid() && executed.Valid() && xsync.Valid() && slave.Valid() && slaveLost.Valid()
    ensures accept <==>
              Gap(Ids(executed.Map()), Ids(xsync.Map()), Ids(slave.Map()), Ids(slaveLost.Map())) <= maxgap
    ensures cont.Valid() && IdsIn(cont) == Handshake.Continue(Ids(known.Map()), Ids(xsync.Map()))
    ensures deltaLost.Valid() && IdsIn(deltaLost) == MasterLost(Ids(slave.Map()), IdsIn(cont))
  {
    hide GtidSet.Valid, GtidSet.Listed, GtidSet.Map, GtidSet.Total, Ids, Gap, IdsIn;
    cont := Minus(known, xsync);
    deltaLost := Minus(slave, cont);
    IdsInIs(cont);
    IdsInIs(deltaLost);
    var gap := CountGap(executed, xsync, slave, slaveLost);
    accept := gap <= maxgap;
  }

  // ----- PSYNC --------------------------------------------------------------------------------------------

  function Lower(c: char): char {
    if 'A' <= c <= 'Z' then c - 'A' + 'a' else c
  }

  // strcasecmp
  predicate SameReplid(a: string, b: string) {
    |a| == |b| && forall i :: 0 <= i < |a| ==> Lower(a[i]) == Lower(b[i])
  }

  // The replica has the history of this server up to the offset.
  predicate Shares(stream: ReplStream, replid: string, offset: int)
    requires stream.prev.PrevPsync?
    reads stream
  {
    || (SameReplid(replid, stream.prev.replid) && offset <= stream.from)
    || (SameReplid(replid, stream.prev.replid2) && offset <= stream.prev.secondOffset)
  }

  ghost predicate InBacklog(stream: ReplStream, offset: int)
    reads stream
  {
    stream.hasBacklog && stream.backlogOff <= offset <= stream.backlogOff + stream.histlen
  }

  // A request of the current mode is left to Redis; one of the previous mode continues up to the switch; one at
  // the switch becomes an xsync replica that is told all that the master knows from before the switch.
  ghost predicate PsyncAnswered(stream: ReplStream, log: seq<LogEntry>, known: set<Id>, replid: string, offset: int,
                                result: SyncResult, cont: set<Id>, deltaLost: set<Id>)
    requires replid != ""
    reads stream
  {
    if replid[0] == '?' || !InBacklog(stream, offset) || !Servable(stream, Psync, offset) then result.Full?
    else if stream.mode == Psync && stream.from <= offset then result == Nop
    else if stream.prev.Mode() != Psync || !Shares(stream, replid, offset) then result.Full?
    else if offset < stream.from then result == Continue(offset, stream.from - offset, stream.prev.replid, -1)
    else
      && result == XContinue(offset, 0, stream.replid, stream.CurReploff(offset - 1))
      && cont == Handshake.Continue(known, IdsOf(Kept(log, offset))) && deltaLost == {}
  }

  method AnaPsyncRequest(server: Numbering.Server, index: GtidSeq, stream: ReplStream, replid: string, offset: int)
    returns (result: SyncResult, cont: GtidSet?, deltaLost: GtidSet?)
    requires server.Sound() && index.Valid() && stream.Valid() && stream.mode != Unset && replid != ""
    ensures PsyncAnswered(stream, LogOf(index), Ids(server.executed.Map()) + Ids(server.lost.Map()), replid, offset,
                          result, IdsIn(cont), IdsIn(deltaLost))
    ensures result.XContinue? ==> cont != null && cont.Valid() && deltaLost != null && deltaLost.Valid()
  {
    hide GtidSet.Valid, GtidSet.Listed, GtidSet.Map, GtidSet.Total, Ids, LogOf, IdsIn, GtidSeq.Valid, Numbering.Server.Sound;
    hide Kept, IdsOf, ReplStream.WrittenIn, Shares;
    cont, deltaLost := null, null;
    if replid[0] == '?' { return Full, null, null; }
    if !stream.hasBacklog || offset < stream.backlogOff || offset > stream.backlogOff + stream.histlen {
      return Full, null, null;
    }
    var located := stream.Locate(Psync, offset);
    if located.Invalid? { return Full, null, null; }
    if located.InCur? { return Nop, null, null; }
    assert stream.prev.PrevPsync?;
    if !Shares(stream, replid, offset) { return Full, null, null; }
    if located.InPrev? {
      result := Continue(offset, located.limit, stream.prev.replid, -1);
    } else {
      cont, deltaLost := SetsFrom(server, index, offset);
      result := XContinue(offset, 0, stream.replid, stream.CurReploff(offset - 1));
    }
  }

  method SetsFrom(server: Numbering.Server, index: GtidSeq, offset: int) returns (cont: GtidSet, deltaLost: GtidSet)
    requires server.Sound() && index.Valid()
    ensures cont.Valid() && deltaLost.Valid() && IdsIn(deltaLost) == {}
    ensures IdsIn(cont) == Handshake.Continue(Ids(server.executed.Map()) + Ids(server.lost.Map()),
                                              IdsOf(Kept(LogOf(index), offset)))
  {
    hide GtidSet.Valid, GtidSet.Listed, GtidSet.Map, GtidSet.Total, Ids, IdsIn, GtidSeq.Valid, Numbering.Server.Sound;
    hide Kept, IdsOf;
    GtidSeqScans.Begins(index);
    UnionIds(server.executed.Map(), server.lost.Map());
    var known := GetKnown(server);
    var xsync := GtidSeqScans.Psync(index, offset);
    cont := Minus(known, xsync);
    IdsInIs(cont);
    deltaLost := new GtidSet();
    NoneIn(deltaLost);
  }

  lemma NoneIn(s: GtidSet)
    requires s.entries == []
    ensures IdsIn(s) == {}
  {
  }
}
