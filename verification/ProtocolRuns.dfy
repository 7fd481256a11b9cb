/** What holds over whole runs of the protocol. */
module ProtocolRuns {
  import opened Handshake
  import Intervals
  import opened NextGnos
  import opened Protocol
  import opened ProtocolNumbering
  import opened ProtocolSafety
  import opened SeqLogs
  import opened SeqQueries
  import opened Tables

  // Each server starts alone, with any disjoint sets, an empty index, and its next number beyond its own ids.
  ghost predicate Initial(s: State) {
    && s.ignored == 0
    && forall i :: 0 <= i < |s.servers| ==>
      s.servers[i].link.Idle? && s.servers[i].log == [] && s.servers[i].executed !! s.servers[i].lost && Numbered(s.servers[i])
  }

  lemma InitialIsOk(s: State)
    requires Initial(s)
    ensures Inv(s)
  {
    forall i | 0 <= i < |s.servers|
      ensures ServerOk(s.servers[i]) && LinkOk(s.servers, i)
    {
      assert IdSeq(s.servers[i].log) == [];
    }
  }

  lemma StepKeeps(s: State, step: Step)
    requires Inv(s) && Enabled(s, step) && Heeds(s, step)
    ensures Inv(Next(s, step))
  {
    hide AllOk, AllNumbered, Enabled, Next, Heeds;
    StepKeepsOk(s, step);
    StepKeepsNumbered(s, step);
  }

  // A run from s to t on which no server is sent its own id at or beyond a next gno that it has chosen.
  ghost predicate Reaches(s: State, steps: seq<Step>, t: State)
    decreases |steps|
  {
    if steps == [] then t == s
    else Enabled(s, steps[0]) && Heeds(s, steps[0]) && Reaches(Next(s, steps[0]), steps[1..], t)
  }

  lemma {:induction false} RunKeeps(s: State, steps: seq<Step>, t: State)
    requires Inv(s) && Reaches(s, steps, t)
    ensures Inv(t)
    decreases |steps|
  {
    hide Inv, Enabled, Heeds, Next;
    if steps != [] {
      StepKeeps(s, steps[0]);
      RunKeeps(Next(s, steps[0]), steps[1..], t);
    }
  }

  // Over every run: the sets of each server are disjoint, what it indexes it has executed, no command was
  // ever ignored, the id of its next transaction is new, and each open link carries exactly what the replica does
  // not know yet.
  lemma Safety(s: State, steps: seq<Step>, t: State, r: nat)
    requires Initial(s) && Reaches(s, steps, t) && r < |t.servers|
    ensures t.ignored == 0 && NextId(t.servers[r]) !in Known(t.servers[r])
    ensures t.servers[r].executed !! t.servers[r].lost && IdsOf(t.servers[r].log) <= t.servers[r].executed
    ensures var l := t.servers[r].link;
      l.Streaming? ==> Unrepeated(l.pending) && Items(l.pending) !! Known(t.servers[r])
    ensures var l := t.servers[r].link;
      l.Streaming? && l.attached ==>
        (l.m < |t.servers| && Known(t.servers[l.m]) == Known(t.servers[r]) + Items(l.pending))
  {
    InitialIsOk(s);
    RunKeeps(s, steps, t);
    NextIsUnknown(t.servers[r]);
    assert ServerOk(t.servers[r]) && LinkOk(t.servers, r);
  }

  // Over every run: on an open link the executed sets of both ends differ, once the stream is through, by
  // the gap that was found when the link was accepted, and by no more than was asked for.
  lemma BoundedDivergence(s: State, steps: seq<Step>, t: State, r: nat)
    requires Initial(s) && Reaches(s, steps, t) && r < |t.servers|
    requires t.servers[r].link.Streaming? && t.servers[r].link.attached
    ensures var l := t.servers[r].link;
      && l.m < |t.servers|
      && t.servers[l.m].executed - (t.servers[r].executed + Items(l.pending)) == l.mgap
      && (t.servers[r].executed + Items(l.pending)) - t.servers[l.m].executed == l.sgap
      && |l.mgap| + |l.sgap| <= l.maxgap
  {
    InitialIsOk(s);
    RunKeeps(s, steps, t);
    assert LinkOk(t.servers, r);
  }

  // Whatever happens elsewhere, a link that goes on streaming keeps its gap.
  lemma GapStays(s: State, step: Step, r: nat)
    requires Enabled(s, step) && r < |s.servers| && s.servers[r].link.Streaming?
    requires r < |Next(s, step).servers| && Next(s, step).servers[r].link.Streaming?
    ensures SameGap(s.servers[r].link, Next(s, step).servers[r].link)
  {
    hide Known, IdsOf, IdSeq, Items, Gap, MasterGap, ReplicaGap, Suffix, Start, Kept, Continue, MasterLost, ReplicaLost;
    hide Beyond, DoCommand, DoWrite, DoDeliver, DoAccept, DoAcceptPrev, DoReply, DoReplyAll, SameGap, Losing, Reset;
    var ss := s.servers;
    match step
    case Command(n, e) => CommandStays(ss, n, e, r);
    case Write(n, offset) => WriteStays(ss, n, offset, r);
    case Deliver(q, offset) => DeliverStays(ss, q, offset, r);
    case Accept(q) => AcceptStays(ss, q, r);
    case AcceptPrev(q, k) => AcceptPrevStays(ss, q, k, r);
    case Reply(q, update) => ReplyStays(ss, q, update, r);
    case ReplyAll(q) => ReplyAllStays(ss, q, r);
    case ToPsync(n) => CutStays(ss, n, ss[n].(mode := Psync, link := Idle), -1, r);
    case ToXsync(n, uuid, executed, lost) =>
      CutStays(ss, n, Reset(ss[n].(uuid := uuid), executed, lost).(mode := Xsync, log := [], link := Idle), -1, r);
    case _ => OtherStays(s, step, r);
  }

  ghost predicate SameGap(l: Link, k: Link)
    requires l.Streaming? && k.Streaming?
  {
    k.m == l.m && k.mgap == l.mgap && k.sgap == l.sgap && k.maxgap == l.maxgap
  }

  lemma CommandStays(ss: seq<Server>, n: nat, e: LogEntry, r: nat)
    requires CanCommand(ss, n, e) && r < |ss| && ss[r].link.Streaming?
    ensures DoCommand(ss, n, e)[r].link.Streaming? && SameGap(ss[r].link, DoCommand(ss, n, e)[r].link)
  {
    hide Known, Beyond;
  }

  lemma WriteStays(ss: seq<Server>, n: nat, offset: int, r: nat)
    requires CanWrite(ss, n, offset) && r < |ss| && ss[r].link.Streaming?
    ensures DoWrite(ss, n, offset)[r].link.Streaming? && SameGap(ss[r].link, DoWrite(ss, n, offset)[r].link)
  {
    hide NextId, Beyond;
  }

  lemma DeliverStays(ss: seq<Server>, q: nat, offset: int, r: nat)
    requires CanDeliver(ss, q, offset) && r < |ss| && ss[r].link.Streaming?
    ensures DoDeliver(ss, q, offset)[r].link.Streaming? && SameGap(ss[r].link, DoDeliver(ss, q, offset)[r].link)
  {
    hide Known, Beyond, Ignores;
  }

  lemma CutStays(ss: seq<Server>, n: nat, t: Server, except: int, r: nat)
    requires n < |ss| && r < |ss| && ss[r].link.Streaming? && CutAll(ss[n := t], n, except)[r].link.Streaming?
    requires n == r ==> t.link.Idle?
    ensures SameGap(ss[r].link, CutAll(ss[n := t], n, except)[r].link)
  {
  }

  lemma AcceptStays(ss: seq<Server>, q: nat, r: nat)
    requires SmallGap(ss, q) && r < |ss| && ss[r].link.Streaming? && DoAccept(ss, q)[r].link.Streaming?
    ensures SameGap(ss[r].link, DoAccept(ss, q)[r].link)
  {
    var m := ss[q].link.m;
    var t, v := Losing(ss[m], LossOf(ss[m], ss[q].link.request)).(link := Idle), DoAccept(ss, q);
    assert r != q;
    assert v[r] == ss[r] || v[r] == CutAll(ss[m := t], m, q)[r];
    hide SmallGap, LossOf, AnswerOf, Losing, DoAccept, Answering;
    if v[r] != ss[r] {
      CutStays(ss, m, t, q, r);
    }
  }

  lemma AcceptPrevStays(ss: seq<Server>, q: nat, k: nat, r: nat)
    requires CanAcceptPrev(ss, q, k) && r < |ss| && ss[r].link.Streaming? && DoAcceptPrev(ss, q, k)[r].link.Streaming?
    ensures SameGap(ss[r].link, DoAcceptPrev(ss, q, k)[r].link)
  {
    AcceptStays(ss, q, r);
  }

  lemma ReplyStays(ss: seq<Server>, q: nat, update: bool, r: nat)
    requires CanReply(ss, q) && r < |ss| && ss[r].link.Streaming? && DoReply(ss, q, update)[r].link.Streaming?
    ensures SameGap(ss[r].link, DoReply(ss, q, update)[r].link)
  {
    hide Known, ReplicaLost, Losing;
  }

  lemma ReplyAllStays(ss: seq<Server>, q: nat, r: nat)
    requires CanReplyAll(ss, q) && r < |ss| && ss[r].link.Streaming? && DoReplyAll(ss, q)[r].link.Streaming?
    ensures SameGap(ss[r].link, DoReplyAll(ss, q)[r].link)
  {
  }

  lemma OtherStays(s: State, step: Step, r: nat)
    requires step.Trim? || step.Ask? || step.AcceptAll? || step.Disconnect? || step.CloseByMaster? || step.LoseTail?
    requires Enabled(s, step) && r < |s.servers| && s.servers[r].link.Streaming?
    requires r < |Next(s, step).servers| && Next(s, step).servers[r].link.Streaming?
    ensures SameGap(s.servers[r].link, Next(s, step).servers[r].link)
  {
    hide Known, IdsOf, IdSeq, Kept, Continue;
  }

  // Once the stream is through both ends know the same ids; with no gap allowed, or after the replica has
  // taken over the master's sets, they have executed the same and lost the same.
  lemma Converged(ss: seq<Server>, r: nat)
    requires AllOk(ss) && r < |ss| && ss[r].link.Streaming? && ss[r].link.attached && ss[r].link.pending == []
    ensures ss[r].link.m < |ss| && Known(ss[ss[r].link.m]) == Known(ss[r])
    ensures ss[r].link.maxgap == 0 ==>
      ss[ss[r].link.m].executed == ss[r].executed && ss[ss[r].link.m].lost == ss[r].lost
  {
    var l := ss[r].link;
    assert LinkOk(ss, r) && ServerOk(ss[r]) && ServerOk(ss[l.m]);
    var m := ss[l.m];
    assert ss[r].executed + Items(l.pending) == ss[r].executed;
    if l.maxgap == 0 {
      assert l.mgap == {} && l.sgap == {};
      assert forall x :: x in m.executed ==> x in ss[r].executed || x in m.executed - ss[r].executed;
      assert forall x :: x in ss[r].executed ==> x in m.executed || x in ss[r].executed - m.executed;
      assert m.lost == Known(m) - m.executed && ss[r].lost == Known(ss[r]) - ss[r].executed;
    }
  }

  // Taking all that is on its way leads there.
  ghost function Drain(ss: seq<Server>, r: nat, offset: int): seq<Server>
    requires r < |ss| && ss[r].link.Streaming? && ss[r].link.m != r && Beyond(ss[r].log, offset)
    decreases |ss[r].link.pending|
  {
    if ss[r].link.pending == [] then ss else Drain(DoDeliver(ss, r, offset), r, offset + 1)
  }

  // One command on the way.
  lemma DrainStep(ss: seq<Server>, r: nat, offset: int)
    requires AllOk(ss) && CanDeliver(ss, r, offset) && ss[r].link.m != r
    ensures var u, l := DoDeliver(ss, r, offset), ss[r].link;
      && |u| == |ss| && AllOk(u) && Beyond(u[r].log, offset + 1) && u[r].lost == ss[r].lost
      && u[r].link == Taken(l)
      && u[r].executed + Items(l.pending[1..]) == ss[r].executed + Items(l.pending)
  {
    DeliverKeeps(ss, r, offset);
    NeverIgnores(ss, r, offset);
    assert LinkOk(ss, r);
    var q := ss[r].link.pending;
    ItemsTake(q);
    assert (ss[r].executed + {q[0]}) + Items(q[1..]) == ss[r].executed + Items(q);
  }

  lemma {:induction false} DrainConverges(ss: seq<Server>, r: nat, offset: int)
    requires AllOk(ss) && r < |ss| && ss[r].link.Streaming? && ss[r].link.attached
    requires ss[r].link.m != r && Beyond(ss[r].log, offset)
    ensures var t := Drain(ss, r, offset);
      && |t| == |ss| && ss[r].link.m < |t| && AllOk(t)
      && t[r].executed == ss[r].executed + Items(ss[r].link.pending) && t[r].lost == ss[r].lost
      && Known(t[ss[r].link.m]) == Known(t[r])
      && (ss[r].link.maxgap == 0 ==> t[ss[r].link.m].executed == t[r].executed && t[ss[r].link.m].lost == t[r].lost)
    decreases |ss[r].link.pending|
  {
    hide AllOk, DoDeliver, Known, Items, Beyond;
    if ss[r].link.pending == [] {
      Converged(ss, r);
      NoItems(ss[r].executed);
    } else {
      assert CanDeliver(ss, r, offset);
      DrainStep(ss, r, offset);
      DrainConverges(DoDeliver(ss, r, offset), r, offset + 1);
    }
  }

  lemma NoItems(s: set<Id>)
    ensures s + Items([]) == s
  {
  }

  // From psync to xsync: a replica that takes over the master's sets and then takes the whole stream has
  // executed and lost exactly what the master had.
  lemma Aligned(ss: seq<Server>, r: nat, m: nat, from: int, offset: int)
    requires AllOk(ss) && CanAcceptAll(ss, r, m)
    ensures var u := DoReplyAll(DoAcceptAll(ss, r, m, from), r);
      r < |u| && u[r].link.Streaming? && u[r].link.m != r && Beyond(u[r].log, offset) && AllOk(u) &&
      var t := Drain(u, r, offset);
      r < |t| && m < |t| && t[r].executed == t[m].executed && t[r].lost == t[m].lost
  {
    AcceptAllKeeps(ss, r, m, from);
    var v := DoAcceptAll(ss, r, m, from);
    ReplyAllKeeps(v, r);
    DrainConverges(DoReplyAll(v, r), r, offset);
  }

  // ----- Why the other replicas must be disconnected -------------------------------------------------------------

  // If server m added d to its lost set and kept its link to a replica, the link would still hold what it
  // promises exactly if there was nothing to add.
  lemma DisconnectionIsNeeded(ss: seq<Server>, m: nat, r: nat, d: set<Id>)
    requires AllOk(ss) && m < |ss| && r < |ss| && ss[r].link.Streaming? && Fed(ss[r].link, m)
    requires d !! Known(ss[m])
    ensures LinkOk(ss[m := ss[m].(lost := ss[m].lost + d)], r) <==> d == {}
  {
    var v := ss[m := ss[m].(lost := ss[m].lost + d)];
    assert LinkOk(ss, r);
    assert Known(v[m]) == Known(ss[m]) + d && v[r] == ss[r];
    if d != {} {
      assert Known(v[m]) != Known(ss[m]);
    } else {
      assert ss[m].lost + {} == ss[m].lost;
    }
  }

  // Such a link can be there: two servers that have executed the same.
  lemma LinksExist()
    ensures var a := Id("A", 1);
      var ss := [Server(Xsync, "A", {a}, {}, 0, [], [], Idle),
                 Server(Xsync, "B", {a}, {}, 0, [], [], Streaming(0, true, [], {}, {}, 0, 0, []))];
      AllOk(ss) && Fed(ss[1].link, 0)
  {
    var a := Id("A", 1);
    assert IdSeq([]) == [] && Items([]) == {};
    assert {a} + {} == {a};
    assert {a} - ({a} + {}) == {} && ({a} + {}) - {a} == {};
  }

  // ----- What happens if a server is sent its own id -------------------------------------------------------------

  // If t has executed x from outside and goes on to a transaction of its own, the id is a repeated one exactly if x
  // had the next gno that s had chosen. The index then holds it twice.
  lemma RepeatsItself(s: Server, t: Server, x: Id, offset: int, o: int)
    requires Numbered(s) && t.uuid == s.uuid && t.curnext == s.curnext && t.lost == s.lost
    requires t.executed == s.executed + {x} && t.log == s.log + [LogEntry(x.uuid, x.gno, offset)]
    ensures NextId(t) in Known(t) <==> s.curnext != 0 && x == NextId(s)
    ensures NextId(t) in Known(t) ==>
      NextId(t) == x && !Unrepeated(IdSeq(t.log + [LogEntry(NextId(t).uuid, NextId(t).gno, o)]))
  {
    OutsideId(s, t, x);
    if s.curnext != 0 && x == NextId(s) {
      var log := t.log + [LogEntry(x.uuid, x.gno, o)];
      var k := |s.log|;
      assert IdSeq(log)[k] == x && IdSeq(log)[k + 1] == x;
      assert !Differ(IdSeq(log), k, k + 1);
    }
  }

  // By a command of a client ...
  lemma CommandRepeats(ss: seq<Server>, n: nat, e: LogEntry, offset: int)
    requires AllNumbered(ss) && CanCommand(ss, n, e) && ss[n].mode.Xsync? && e.offset < offset
    ensures var v := DoCommand(ss, n, e);
      && CanWrite(v, n, offset)
      && (NextId(v[n]) in Known(v[n]) <==> ss[n].curnext != 0 && IdOf(e) == NextId(ss[n]))
      && (NextId(v[n]) in Known(v[n]) ==> !Unrepeated(IdSeq(DoWrite(v, n, offset)[n].log)))
  {
    var v := DoCommand(ss, n, e);
    RepeatsItself(ss[n], v[n], IdOf(e), e.offset, offset);
  }

  // ... or over the link, if the server is promoted then.
  lemma DeliveryRepeats(ss: seq<Server>, r: nat, offset: int, o: int)
    requires AllOk(ss) && AllNumbered(ss) && CanDeliver(ss, r, offset) && ss[r].mode.Xsync? && offset < o
    ensures var v := DoDeliver(ss, r, offset);
      var u := v[r := v[r].(link := Idle)];
      && CanWrite(u, r, o)
      && (NextId(u[r]) in Known(u[r]) <==> ss[r].curnext != 0 && ss[r].link.pending[0] == NextId(ss[r]))
      && (NextId(u[r]) in Known(u[r]) ==> !Unrepeated(IdSeq(DoWrite(u, r, o)[r].log)))
  {
    NeverIgnores(ss, r, offset);
    var v := DoDeliver(ss, r, offset);
    RepeatsItself(ss[r], v[r].(link := Idle), ss[r].link.pending[0], offset, o);
  }

  // A replica that has taken everything ignores the repeated id.
  lemma RepeatIsIgnored(ss: seq<Server>, n: nat, e: LogEntry, r: nat, o1: int, o2: int, o3: int)
    requires AllOk(ss) && AllNumbered(ss) && CanCommand(ss, n, e) && ss[n].mode.Xsync? && e.offset < o1
    requires ss[n].curnext != 0 && IdOf(e) == NextId(ss[n])
    requires r < |ss| && r != n && ss[r].link.Streaming? && Fed(ss[r].link, n) && ss[r].link.pending == []
    requires Beyond(ss[r].log, o2) && o2 < o3
    ensures var v := DoCommand(ss, n, e);
      CanWrite(v, n, o1) && var w := DoWrite(v, n, o1);
      CanDeliver(w, r, o2) && var u := DoDeliver(w, r, o2);
      CanDeliver(u, r, o3) && Ignores(u, r)
  {
    var v := DoCommand(ss, n, e);
    RepeatsItself(ss[n], v[n], IdOf(e), e.offset, o1);
    FedTwice(ss, n, e, r, o1);
    hide *;
    SecondIsIgnored(DoWrite(v, n, o1), r, IdOf(e), o2, o3);
  }

  lemma FedTwice(ss: seq<Server>, n: nat, e: LogEntry, r: nat, o: int)
    requires CanCommand(ss, n, e) && ss[n].mode.Xsync? && e.offset < o && NextId(DoCommand(ss, n, e)[n]) == IdOf(e)
    requires r < |ss| && r != n && ss[r].link.Streaming? && Fed(ss[r].link, n) && ss[r].link.pending == []
    ensures var v := DoCommand(ss, n, e);
      CanWrite(v, n, o) && var w := DoWrite(v, n, o);
      |w| == |ss| && w[r].link.Streaming? && w[r].link.pending == [IdOf(e), IdOf(e)] && w[r].log == ss[r].log
  {
    hide NextId, Known;
    var v := DoCommand(ss, n, e);
    assert v[r].link == FeedLink(ss[r].link, n, IdOf(e));
    assert DoWrite(v, n, o)[r].link == FeedLink(v[r].link, n, IdOf(e));
  }

  lemma SecondIsIgnored(ss: seq<Server>, r: nat, x: Id, o2: int, o3: int)
    requires r < |ss| && ss[r].link.Streaming? && ss[r].link.pending == [x, x] && Beyond(ss[r].log, o2) && o2 < o3
    ensures CanDeliver(ss, r, o2) && var u := DoDeliver(ss, r, o2);
      CanDeliver(u, r, o3) && Ignores(u, r)
  {
    var u := DoDeliver(ss, r, o2);
    assert !Fed(ss[r].link, r) ==> u[r].link.pending == [x];
    if Fed(ss[r].link, r) {
      assert u[r].link.pending == [x, x];
    }
  }
}
