/** What a reply to a request changes: the lost set grows, or both sets are replaced. */
module Replies {
  import opened Analysis
  import opened GtidSets
  import opened GtidSetAlgebra
  import opened Handshake
  import opened Numbering
  import opened ReplModes
  import opened Tables

  // A set shares nothing with the sets of a server.
  ghost predicate Apart(server: Numbering.Server, s: GtidSet)
    reads server, server.executed`repr, server.executed`members, server.lost`repr, server.lost`members, s`repr, s`members
  {
    server !in s.repr && Disjoint(server.executed, s) && Disjoint(server.lost, s)
  }

  // The stream is not part of a set.
  ghost predicate Clear(server: Numbering.Server, stream: ReplStream)
    reads server, server.executed`repr, server.lost`repr
  {
    stream !in server.executed.repr && stream !in server.lost.repr
  }

  // serverReplStreamUpdateXsync: counts delta as lost, and takes over what a master has sent. "updated" says
  // that other replicas, and the own master unless this comes from it, have to be disconnected.
  method UpdateXsync(server: Numbering.Server, stream: ReplStream, delta: GtidSet, fromMaster: bool, replid: string, reploff: int)
    returns (updated: bool)
    requires server.Valid() && stream.Valid() && stream.MayTakeOver(fromMaster, replid, reploff)
    requires delta.Valid() && Apart(server, delta) && Clear(server, stream)
    modifies server.lost, server.lost.repr, server.lost.members`next, server.executed, server.executed.repr
    modifies stream`replid, stream`delta
    ensures server.Valid() && stream.Valid() && server.executed.Map() == old(server.executed.Map())
    ensures Ids(server.lost.Map()) == Ids(old(server.lost.Map())) + Ids(old(delta.Map()))
    ensures stream.replid == if replid != "" then replid else old(stream.replid)
    ensures stream.masterOffset + stream.delta == if reploff >= 0 then reploff else old(stream.masterOffset + stream.delta)
    ensures updated <==> Ids(old(delta.Map())) != {} || stream.replid != old(stream.replid) || stream.delta != old(stream.delta)
  {
    hide GtidSet.Valid, GtidSet.Listed, GtidSet.Map, GtidSet.Total, Numbering.Server.Valid, Ids;
    var grown := server.AddLostIfAny(delta);
    var taken := stream.TakeOver(fromMaster, replid, reploff);
    updated := grown || taken;
  }

  // What a replica in xsync mode makes of XCONTINUE: it counts as lost what the master names and it has not, and
  // takes over the replication id and the offset. "updated" says that its own replicas have to be disconnected.
  method ReadXcontinue(server: Numbering.Server, stream: ReplStream, cont: GtidSet, replid: string, reploff: int)
    returns (updated: bool)
    requires server.Valid() && stream.Valid() && stream.mode == Xsync && cont.Valid() && Clear(server, stream)
    modifies server.lost, server.lost.repr, server.lost.members`next, server.executed, server.executed.repr
    modifies stream`replid, stream`delta
    ensures server.Valid() && stream.Valid() && server.executed.Map() == old(server.executed.Map())
    ensures Ids(server.lost.Map()) ==
              Ids(old(server.lost.Map())) + (Ids(old(cont.Map())) - (Ids(old(server.executed.Map())) + Ids(old(server.lost.Map()))))
    ensures stream.replid == if replid != "" then replid else old(stream.replid)
    ensures stream.masterOffset + stream.delta == if reploff >= 0 then reploff else old(stream.masterOffset + stream.delta)
    ensures updated <==>
              !(Ids(old(cont.Map())) <= Ids(old(server.executed.Map())) + Ids(old(server.lost.Map())))
              || stream.replid != old(stream.replid) || stream.delta != old(stream.delta)
  {
    hide GtidSet.Valid, GtidSet.Listed, GtidSet.Map, GtidSet.Total, Ids, Union;
    UnionIds(server.executed.Map(), server.lost.Map());
    var known := GetKnown(server);
    var slost := Minus(cont, known);
    updated := UpdateXsync(server, stream, slost, true, replid, reploff);
  }

  // What a replica in psync mode makes of it: it takes over the master's sets, and xsync mode begins.
  method AdoptXcontinue(server: Numbering.Server, stream: ReplStream, cont: GtidSet, lost: GtidSet, replid: string, reploff: int)
    requires server.Valid() && stream.Valid() && stream.mode == Psync && cont.Valid() && lost.Valid()
    requires Clear(server, stream) && stream !in cont.repr + lost.repr
    modifies server, server.lost, server.lost.repr, server.lost.members`next, stream
    ensures server.Valid() && stream.Valid() && stream.mode == Xsync && stream.replid == replid
    ensures stream.CurReploff(stream.masterOffset) == reploff && stream.masterOffset == old(stream.masterOffset)
    ensures Ids(server.executed.Map()) == Ids(old(cont.Map())) - Ids(old(lost.Map()))
    ensures Ids(server.lost.Map()) == Ids(old(lost.Map()))
  {
    hide GtidSet.Valid, GtidSet.Listed, GtidSet.Map, GtidSet.Total, Ids, Numbering.Server.Valid;
    assert stream !in cont.repr && stream !in lost.repr;
    stream.SwitchToXsync(replid, reploff);
    AdoptSets(server, cont, lost);
  }

  method AdoptSets(server: Numbering.Server, cont: GtidSet, lost: GtidSet)
    requires server.Valid() && cont.Valid() && lost.Valid()
    modifies server, server.lost, server.lost.repr, server.lost.members`next
    ensures server.Valid()
    ensures Ids(server.executed.Map()) == Ids(old(cont.Map())) - Ids(old(lost.Map()))
    ensures Ids(server.lost.Map()) == Ids(old(lost.Map()))
  {
    hide GtidSet.Valid, GtidSet.Listed, GtidSet.Map, GtidSet.Total, Ids, Union;
    var executed := Minus(cont, lost);
    var copy := Dup(lost);
    copy.Meaning();
    lost.Meaning();
    server.ResetExecuted(executed);
    server.ResetLost(copy);
  }
}
