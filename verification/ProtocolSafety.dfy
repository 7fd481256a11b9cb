/** What every step of the protocol keeps, and what follows for whole runs. */
module ProtocolSafety {
  import opened Handshake
  import Intervals
  import opened NextGnos
  import opened Protocol
  import opened SeqLogs
  import opened SeqQueries
  import opened Tables

  ghost predicate Differ(q: seq<Id>, i: nat, j: nat)
    requires i < |q| && j < |q|
  {
    q[i] != q[j]
  }

  ghost predicate Unrepeated(q: seq<Id>) {
    forall i, j :: 0 <= i < j < |q| ==> Differ(q, i, j)
  }

  // ----- The invariant ------------------------------------------------------------------------------------

  // Executed and lost are disjoint, and what is indexed has been executed, once.
  ghost predicate ServerOk(s: Server) {
    s.executed !! s.lost && IdsOf(s.log) <= s.executed && Unrepeated(IdSeq(s.log))
  }

  // How the executed sets of both ends differ, not counting what is on its way.
  ghost predicate Gaps(master: set<Id>, replica: set<Id>, mgap: set<Id>, sgap: set<Id>, maxgap: nat) {
    master - replica == mgap && replica - master == sgap && |mgap| + |sgap| <= maxgap
  }

  // What a link promises at the replica's end: nothing on its way is there already.
  ghost predicate Local(s: Server) {
    match s.link
    case Idle => true
    case Asked(_, request, requestLost, _) => request == Known(s) && requestLost == s.lost
    case Answered(_, _, request, cont, pending, _, _, _, _) =>
      request == Known(s) && Unrepeated(pending) && Items(pending) !! request + cont
    case Adopting(_, _, cont, contLost, pending, _) =>
      contLost <= cont && Unrepeated(pending) && Items(pending) !! cont
    case Streaming(_, _, pending, _, _, _, _, _) => Unrepeated(pending) && Items(pending) !! Known(s)
  }

  // While the link is open at the master's end: with what is on its way the replica knows what m knows.
  ghost predicate Joint(s: Server, m: Server) {
    match s.link
    case Answered(_, _, request, cont, pending, mgap, sgap, maxgap, _) =>
      Known(m) == request + cont + Items(pending) && Gaps(m.executed, s.executed + Items(pending), mgap, sgap, maxgap)
    case Adopting(_, _, cont, contLost, pending, _) =>
      Known(m) == cont + Items(pending) && m.lost == contLost
    case Streaming(_, _, pending, mgap, sgap, maxgap, _, _) =>
      Known(m) == Known(s) + Items(pending) && Gaps(m.executed, s.executed + Items(pending), mgap, sgap, maxgap)
    case _ => true
  }

  ghost predicate LinkOk(ss: seq<Server>, r: nat)
    requires r < |ss|
  {
    var l := ss[r].link;
    !l.Idle? ==> l.m < |ss| && l.m != r && Local(ss[r]) && (Fed(l, l.m) ==> Joint(ss[r], ss[l.m]))
  }

  ghost predicate AllOk(ss: seq<Server>) {
    forall i :: 0 <= i < |ss| ==> ServerOk(ss[i]) && LinkOk(ss, i)
  }

  // The next number of the server exceeds all under its uuid that it has executed or lost.
  ghost predicate Numbered(s: Server) {
    s.curnext >= 0 && Ahead(s.curnext, Own(s), OwnLost(s))
  }

  ghost predicate AllNumbered(ss: seq<Server>) {
    forall i :: 0 <= i < |ss| ==> Numbered(ss[i])
  }

  ghost predicate Inv(s: State) {
    AllOk(s.servers) && AllNumbered(s.servers) && s.ignored == 0
  }

  // ----- Queues of ids --------------------------------------------------------------------------------------

  lemma ItemsAppend(q: seq<Id>, x: Id)
    ensures Items(q + [x]) == Items(q) + {x}
    ensures Unrepeated(q) && x !in Items(q) ==> Unrepeated(q + [x])
  {
    var t := q + [x];
    if Unrepeated(q) && x !in Items(q) {
      forall i, j | 0 <= i < j < |t| ensures Differ(t, i, j) {
        assert j < |q| ==> Differ(q, i, j);
        assert q[i] in Items(q);
      }
    }
  }

  lemma ItemsTake(q: seq<Id>)
    requires q != [] && Unrepeated(q)
    ensures Items(q) == {q[0]} + Items(q[1..]) && q[0] !in Items(q[1..]) && Unrepeated(q[1..])
  {
    var t := q[1..];
    forall i, j | 0 <= i < j < |t| ensures Differ(t, i, j) {
      assert Differ(q, i + 1, j + 1);
    }
    forall i | 0 <= i < |t| ensures t[i] != q[0] {
      assert Differ(q, 0, i + 1);
    }
    assert q == [q[0]] + t;
  }

  lemma ItemsPrefix(q: seq<Id>, k: nat)
    requires k <= |q| && Unrepeated(q)
    ensures Items(q[..k]) <= Items(q) && Unrepeated(q[..k])
  {
    forall i, j | 0 <= i < j < k ensures Differ(q[..k], i, j) {
      assert Differ(q, i, j);
    }
  }

  lemma ItemsOfLog(log: seq<LogEntry>)
    ensures Items(IdSeq(log)) == IdsOf(log)
  {
    forall x | x in IdsOf(log) ensures x in Items(IdSeq(log)) {
      var i :| 0 <= i < |log| && Id(log[i].uuid, log[i].gno) == x;
      assert IdSeq(log)[i] == x;
    }
  }

  lemma LogAppend(log: seq<LogEntry>, e: LogEntry)
    requires Unrepeated(IdSeq(log)) && IdOf(e) !in IdsOf(log)
    ensures IdsOf(log + [e]) == IdsOf(log) + {IdOf(e)} && Unrepeated(IdSeq(log + [e]))
  {
    assert IdSeq(log + [e]) == IdSeq(log) + [IdOf(e)];
    ItemsAppend(IdSeq(log), IdOf(e));
    ItemsOfLog(log);
    ItemsOfLog(log + [e]);
  }

  // Any part of a log.
  lemma LogPart(log: seq<LogEntry>, k: nat)
    requires Unrepeated(IdSeq(log)) && k <= |log|
    ensures IdsOf(log[k..]) <= IdsOf(log) && Unrepeated(IdSeq(log[k..]))
  {
    var t := log[k..];
    forall i, j | 0 <= i < j < |t| ensures Differ(IdSeq(t), i, j) {
      assert Differ(IdSeq(log), k + i, k + j);
    }
    forall x | x in IdsOf(t) ensures x in IdsOf(log) {
      var i :| 0 <= i < |t| && Id(t[i].uuid, t[i].gno) == x;
      assert t[i] == log[k + i];
    }
  }

  lemma {:induction false} KeptPart(log: seq<LogEntry>, until: int)
    requires Unrepeated(IdSeq(log))
    ensures IdsOf(Kept(log, until)) <= IdsOf(log) && Unrepeated(IdSeq(Kept(log, until)))
  {
    if log != [] {
      var p, e := log[..|log| - 1], log[|log| - 1];
      forall i, j | 0 <= i < j < |p| ensures Differ(IdSeq(p), i, j) {
        assert Differ(IdSeq(log), i, j);
      }
      forall i | 0 <= i < |p| ensures IdOf(p[i]) != IdOf(e) {
        assert Differ(IdSeq(log), i, |p|);
      }
      KeptPart(p, until);
      assert IdOf(e) !in IdsOf(p);
      assert log == p + [e];
      LogAppend(p, e);
      assert Kept(p, until) + [] == Kept(p, until);
      if e.offset >= until {
        LogAppend(Kept(p, until), e);
      }
    }
  }

  // ----- One link at a time -----------------------------------------------------------------------------------

  // The master executes x and streams it.
  lemma Fed1(s: Server, m: Server, m': Server, x: Id)
    requires Local(s) && Joint(s, m) && (s.link.Answered? || s.link.Adopting? || s.link.Streaming?)
    requires x !in Known(m) && m'.executed == m.executed + {x} && m'.lost == m.lost
    ensures var t := s.(link := Queued(s.link, x)); Local(t) && Joint(t, m')
  {
    if s.link.Answered? {
      FedAnswered(s, m, m', x);
    } else if s.link.Adopting? {
      FedAdopting(s, m, m', x);
    } else {
      FedStreaming(s, m, m', x);
    }
  }

  lemma FedAnswered(s: Server, m: Server, m': Server, x: Id)
    requires Local(s) && Joint(s, m) && s.link.Answered?
    requires x !in Known(m) && m'.executed == m.executed + {x} && m'.lost == m.lost
    ensures var l := s.link;
      var t := s.(link := Queued(l, x));
      Local(t) && Joint(t, m')
  {
    ItemsAppend(s.link.pending, x);
    MoreGaps(m.executed, s.executed, Items(s.link.pending), x);
  }

  lemma FedAdopting(s: Server, m: Server, m': Server, x: Id)
    requires Local(s) && Joint(s, m) && s.link.Adopting?
    requires x !in Known(m) && m'.executed == m.executed + {x} && m'.lost == m.lost
    ensures var l := s.link;
      var t := s.(link := Queued(l, x));
      Local(t) && Joint(t, m')
  {
    ItemsAppend(s.link.pending, x);
  }

  lemma FedStreaming(s: Server, m: Server, m': Server, x: Id)
    requires Local(s) && Joint(s, m) && s.link.Streaming?
    requires x !in Known(m) && m'.executed == m.executed + {x} && m'.lost == m.lost
    ensures var l := s.link;
      var t := s.(link := Queued(l, x));
      Local(t) && Joint(t, m')
  {
    ItemsAppend(s.link.pending, x);
    MoreGaps(m.executed, s.executed, Items(s.link.pending), x);
  }

  lemma MoreGaps(m: set<Id>, s: set<Id>, p: set<Id>, x: Id)
    requires x !in m
    requires x !in s + p
    ensures (m + {x}) - (s + (p + {x})) == m - (s + p) && (s + (p + {x})) - (m + {x}) == (s + p) - m
  {
  }

  // The replica executes the next command.
  lemma TakenOk(s: Server, m: Server, log: seq<LogEntry>)
    requires Local(s) && s.link.Streaming? && s.link.pending != []
    ensures s.link.pending[0] !in Known(s)
    ensures var t := s.(executed := s.executed + {s.link.pending[0]}, log := log, link := Taken(s.link));
            Local(t) && (Joint(s, m) ==> Joint(t, m))
  {
    ItemsTake(s.link.pending);
  }

  // The master accepts the request of s.
  lemma Accepted(s: Server, m: Server)
    requires ServerOk(m) && Local(s) && s.link.Asked? && ServerOk(s)
    requires var l := s.link; Gap(m.executed, IdsOf(Suffix(m, l.request)), l.request, l.requestLost) <= l.maxgap
    ensures var t := s.(link := AnswerOf(m, s.link));
            var u := m.(lost := m.lost + LossOf(m, s.link.request));
            ServerOk(u) && Local(t) && Joint(t, u) && t.link.Answered? && t.link.m == s.link.m
  {
    var l := s.link;
    var q := Suffix(m, l.request);
    var k := Start(m.log, l.request);
    LogPart(m.log, k);
    ItemsOfLog(q);
    ContinueIsNew(m.log, l.request, if k < |m.log| then m.log[k].offset else -1, IdsOf(q));
    MasterAdjusts(m.executed, m.lost, IdsOf(q), l.request);
    GapsAreDifferences(m.executed, IdsOf(q), l.request, l.requestLost);
    assert l.request - l.requestLost == s.executed;
  }

  // The replica processes the reply.
  lemma Replied(s: Server, m: Server)
    requires ServerOk(s) && Local(s) && s.link.Answered?
    ensures var l := s.link;
            var t := s.(lost := s.lost + ReplicaLost(l.cont, Known(s)),
                        link := Streaming(l.m, l.attached, l.pending, l.mgap, l.sgap, l.maxgap, l.base, []));
            ServerOk(t) && Local(t) && (Joint(s, m) ==> Joint(t, m)) && Known(t) == Known(s) + l.cont
  {
    assert Known(s) + ReplicaLost(s.link.cont, Known(s)) == Known(s) + s.link.cont;
  }

  // The master lets the replica take over its sets.
  lemma AcceptedAll(s: Server, m: Server, mi: nat, from: int)
    requires ServerOk(m)
    ensures var q := Kept(m.log, from);
            var t := s.(link := Adopting(mi, true, Continue(Known(m), IdsOf(q)), m.lost, IdSeq(q), |m.past| - |q|));
            Local(t) && Joint(t, m)
  {
    var q := Kept(m.log, from);
    KeptPart(m.log, from);
    ItemsOfLog(q);
    assert Known(m) == Continue(Known(m), IdsOf(q)) + IdsOf(q);
  }

  lemma RepliedAll(s: Server, m: Server)
    requires Local(s) && s.link.Adopting? && ServerOk(m)
    ensures var l := s.link;
            var t := s.(executed := l.cont - l.contLost, lost := l.contLost, log := [],
                        link := Streaming(l.m, l.attached, l.pending, {}, {}, 0, l.base, []));
            ServerOk(t) && Local(t) && (Joint(s, m) ==> Joint(t, m))
  {
    var l := s.link;
    assert (l.cont - l.contLost) + l.contLost == l.cont;
    if Joint(s, m) {
      assert m.executed == Known(m) - m.lost;
      assert m.executed == (l.cont - l.contLost) + Items(l.pending);
    }
  }

  // ----- Every step keeps the invariant -----------------------------------------------------------------------

  // Server n executes x, whatever becomes of its own link, and streams it.
  lemma FeedKeeps(ss: seq<Server>, n: nat, t: Server, x: Id)
    requires AllOk(ss) && n < |ss| && x !in Known(ss[n])
    requires t.executed == ss[n].executed + {x} && t.lost == ss[n].lost && ServerOk(t)
    requires !Fed(t.link, n) && LinkOk(ss[n := t], n)
    ensures AllOk(Feed(ss[n := t], n, x))
  {
    var u := ss[n := t];
    var v := Feed(u, n, x);
    forall i | 0 <= i < |v| ensures ServerOk(v[i]) && LinkOk(v, i) {
      assert ServerOk(ss[i]) && LinkOk(ss, i);
      if i == n {
        assert v[i] == t;
        assert !t.link.Idle? && t.link.m < |ss| ==> v[t.link.m].executed == u[t.link.m].executed && v[t.link.m].lost == u[t.link.m].lost;
      } else if Fed(ss[i].link, n) {
        Fed1(ss[i], ss[n], t, x);
      }
    }
  }

  // Server n changes in any way, and all its replicas but one are cut off.
  lemma CutKeeps(ss: seq<Server>, n: nat, t: Server, except: int)
    requires AllOk(ss) && n < |ss| && ServerOk(t) && LinkOk(ss[n := t], n)
    requires except != n && (t.link.Idle? || t.link.m != n)
    ensures var v := CutAll(ss[n := t], n, except);
            && |v| == |ss| && v[n] == t
            && (forall i :: 0 <= i < |v| && i != n ==> v[i].executed == ss[i].executed && v[i].lost == ss[i].lost)
            && forall i :: 0 <= i < |v| && i != except ==> ServerOk(v[i]) && LinkOk(v, i)
  {
    var v := CutAll(ss[n := t], n, except);
    forall i | 0 <= i < |v| && i != except ensures ServerOk(v[i]) && LinkOk(v, i) {
      assert ServerOk(ss[i]) && LinkOk(ss, i);
      hide AllOk, LinkOk, ServerOk;
      CutKeepsOne(ss, n, t, except, i);
    }
  }

  lemma CutKeepsOne(ss: seq<Server>, n: nat, t: Server, except: int, i: nat)
    requires n < |ss| && ServerOk(t) && LinkOk(ss[n := t], n) && (t.link.Idle? || t.link.m != n)
    requires i < |ss| && i != except && except != n && ServerOk(ss[i]) && LinkOk(ss, i)
    ensures var v := CutAll(ss[n := t], n, except); ServerOk(v[i]) && LinkOk(v, i)
  {
    var u := ss[n := t];
    var v := CutAll(u, n, except);
    assert v[i] == u[i].(link := CutLink(u[i].link, n));
  }

  // Server r changes its link only, or gets a link that is in order; its sets stay.
  lemma LinkKeeps(ss: seq<Server>, r: nat, t: Server)
    requires AllOk(ss) && r < |ss| && t.executed == ss[r].executed && t.lost == ss[r].lost
    requires ServerOk(t) && LinkOk(ss[r := t], r)
    ensures AllOk(ss[r := t])
  {
    var v := ss[r := t];
    forall i | 0 <= i < |v| ensures ServerOk(v[i]) && LinkOk(v, i) {
      assert ServerOk(ss[i]) && LinkOk(ss, i);
    }
  }

  lemma CommandKeeps(ss: seq<Server>, n: nat, e: LogEntry)
    requires AllOk(ss) && CanCommand(ss, n, e)
    ensures AllOk(DoCommand(ss, n, e))
  {
    var s := ss[n];
    assert ServerOk(s);
    LogAppend(s.log, e);
    FeedKeeps(ss, n, s.(executed := s.executed + {IdOf(e)}, log := s.log + [e], past := s.past + [IdOf(e)]), IdOf(e));
  }

  // The server's own transaction has a new id.
  lemma NextIsUnknown(s: Server)
    requires Numbered(s)
    ensures NextId(s) !in Known(s)
  {
    AheadIsFresh(s.curnext, Own(s), OwnLost(s));
    var g := NextGno(s.curnext, Own(s));
    assert g in Own(s) + OwnLost(s) ==> g < g;
    assert NextId(s) in s.executed ==> g in Own(s);
    assert NextId(s) in s.lost ==> g in OwnLost(s);
  }

  lemma WriteKeeps(ss: seq<Server>, n: nat, offset: int)
    requires AllOk(ss) && CanWrite(ss, n, offset) && Numbered(ss[n])
    ensures AllOk(DoWrite(ss, n, offset))
  {
    var s, x := ss[n], NextId(ss[n]);
    NextIsUnknown(s);
    assert ServerOk(s);
    LogAppend(s.log, LogEntry(x.uuid, x.gno, offset));
    FeedKeeps(ss, n, s.(executed := s.executed + {x}, curnext := 0, log := s.log + [LogEntry(x.uuid, x.gno, offset)],
                        past := s.past + [x]), x);
  }

  // No command of the stream is ever ignored: the replica has not got it yet.
  lemma NeverIgnores(ss: seq<Server>, r: nat, offset: int)
    requires AllOk(ss) && CanDeliver(ss, r, offset)
    ensures !Ignores(ss, r)
  {
    assert LinkOk(ss, r);
    TakenOk(ss[r], ss[r], []);
  }

  lemma DeliverKeeps(ss: seq<Server>, r: nat, offset: int)
    requires AllOk(ss) && CanDeliver(ss, r, offset)
    ensures AllOk(DoDeliver(ss, r, offset))
  {
    NeverIgnores(ss, r, offset);
    var s := ss[r];
    var x := s.link.pending[0];
    var log := s.log + [LogEntry(x.uuid, x.gno, offset)];
    var t := s.(executed := s.executed + {x}, log := log, past := s.past + [x], link := Taken(s.link));
    assert ServerOk(s) && LinkOk(ss, r);
    LogAppend(s.log, LogEntry(x.uuid, x.gno, offset));
    TakenOk(s, ss[s.link.m], log);
    FeedKeeps(ss, r, t, x);
  }

  lemma TrimKeeps(ss: seq<Server>, n: nat, until: int)
    requires AllOk(ss) && n < |ss|
    ensures AllOk(ss[n := ss[n].(log := Kept(ss[n].log, until))])
  {
    assert ServerOk(ss[n]) && LinkOk(ss, n);
    KeptPart(ss[n].log, until);
    LinkKeeps(ss, n, ss[n].(log := Kept(ss[n].log, until)));
  }

  // The link of r with an answer of m that is in order, while m becomes t and cuts off the others ...
  lemma AnswerWithLoss(ss: seq<Server>, r: nat, m: nat, t: Server, answer: Link)
    requires AllOk(ss) && r < |ss| && m < |ss| && r != m && answer.Answered? && answer.m == m && ServerOk(t) && t.link.Idle?
    requires var s := ss[r].(link := answer); Local(s) && Joint(s, t)
    ensures AllOk(Answering(ss, r, m, t, answer, true))
  {
    assert ServerOk(ss[r]) && LinkOk(ss, r);
    var s := ss[r].(link := answer);
    hide ServerOk, Local, Joint, AllOk;
    assert LinkOk(ss[m := t], m);
    CutKeeps(ss, m, t, r);
    var c := CutAll(ss[m := t], m, r);
    assert c[r] == ss[r] && c[m] == t;
    SameServer(ss[r], s);
    AddLink(c, r, s);
  }

  // ... and where m stays as it is.
  lemma AnswerWithoutLoss(ss: seq<Server>, r: nat, m: nat, t: Server, answer: Link)
    requires AllOk(ss) && r < |ss| && m < |ss| && r != m && answer.Answered? && answer.m == m
    requires var s := ss[r].(link := answer); Local(s) && Joint(s, ss[m])
    ensures AllOk(Answering(ss, r, m, t, answer, false))
  {
    assert ServerOk(ss[r]);
    hide ServerOk, Local, Joint, AllOk;
    SameServer(ss[r], ss[r].(link := answer));
    LinkKeeps(ss, r, ss[r].(link := answer));
  }

  lemma SameServer(s: Server, t: Server)
    requires t.executed == s.executed && t.lost == s.lost && t.log == s.log
    ensures ServerOk(s) <==> ServerOk(t)
  {
  }

  lemma AcceptKeeps(ss: seq<Server>, r: nat)
    requires AllOk(ss) && SmallGap(ss, r)
    ensures AllOk(DoAccept(ss, r))
  {
    hide AllOk, LinkOk, Local, Joint, ServerOk, AnswerOf, LossOf, Losing, Answering, Gap, Suffix, IdsOf;
    AnswerFits(ss, r);
    var l, m := ss[r].link, ss[r].link.m;
    var loss, answer := LossOf(ss[m], l.request), AnswerOf(ss[m], l);
    if loss != {} {
      AnswerWithLoss(ss, r, m, Losing(ss[m], loss).(link := Idle), answer);
    } else {
      AnswerWithoutLoss(ss, r, m, Losing(ss[m], loss).(link := Idle), answer);
    }
  }

  lemma AnswerFits(ss: seq<Server>, r: nat)
    requires AllOk(ss) && SmallGap(ss, r)
    ensures var l, m := ss[r].link, ss[r].link.m;
            var loss, answer := LossOf(ss[m], l.request), AnswerOf(ss[m], l);
            var s, t := ss[r].(link := answer), Losing(ss[m], loss).(link := Idle);
            && r != m && answer.Answered? && answer.m == m && t.link.Idle? && ServerOk(t)
            && Local(s) && Joint(s, t) && (loss == {} ==> Joint(s, ss[m]))
  {
    hide AllOk, LinkOk, Local, Joint, ServerOk, AnswerOf, LossOf, Losing, Gap, Suffix, IdsOf;
    OkAt(ss, r);
    var l, m := ss[r].link, ss[r].link.m;
    OkAt(ss, m);
    Accepted(ss[r], ss[m]);
    var loss, answer := LossOf(ss[m], l.request), AnswerOf(ss[m], l);
    assert loss == {} ==> ss[m].lost + loss == ss[m].lost;
    LosingSets(ss[m], loss);
    SameSets(ss[r].(link := answer), ss[m].(lost := ss[m].lost + loss), Losing(ss[m], loss).(link := Idle));
  }

  lemma OkAt(ss: seq<Server>, i: nat)
    requires AllOk(ss) && i < |ss|
    ensures ServerOk(ss[i]) && LinkOk(ss, i)
    ensures var l := ss[i].link; !l.Idle? ==> l.m < |ss| && l.m != i && Local(ss[i])
  {
  }

  lemma LosingSets(s: Server, more: set<Id>)
    ensures var t := Losing(s, more); t.executed == s.executed && t.lost == s.lost + more && t.log == s.log
  {
  }

  lemma SameSets(s: Server, m: Server, t: Server)
    requires t.executed == m.executed && t.lost == m.lost && t.log == m.log
    ensures Joint(s, m) <==> Joint(s, t)
    ensures ServerOk(m) <==> ServerOk(t)
  {
  }

  lemma AcceptPrevKeeps(ss: seq<Server>, r: nat, k: nat)
    requires AllOk(ss) && CanAcceptPrev(ss, r, k)
    ensures AllOk(DoAcceptPrev(ss, r, k))
  {
    AnswerAccepted(ss, r, k);
    hide AllOk, DoAccept, Suffix, Gap, IdsOf;
    AcceptKeeps(ss, r);
    Narrowed(DoAccept(ss, r), r, k);
  }

  lemma AnswerAccepted(ss: seq<Server>, r: nat, k: nat)
    requires CanAcceptPrev(ss, r, k)
    ensures var v := DoAccept(ss, r); r < |v| && v[r].link.Answered? && k <= |v[r].link.pending|
  {
    hide Gap, Known, IdsOf, Losing;
  }

  // An answer that sends less, over a link that is not attached.
  lemma Narrowed(v: seq<Server>, r: nat, k: nat)
    requires AllOk(v) && r < |v| && v[r].link.Answered? && k <= |v[r].link.pending|
    ensures var l := v[r].link;
            AllOk(v[r := v[r].(link := Shortened(l, k))])
  {
    var l := v[r].link;
    assert ServerOk(v[r]) && LinkOk(v, r);
    hide AllOk;
    ItemsPrefix(l.pending, k);
    LinkKeeps(v, r, v[r].(link := Shortened(l, k)));
  }

  // All links but that of r are in order, and r gets one that is.
  lemma AddLink(ss: seq<Server>, r: nat, t: Server)
    requires r < |ss| && t.executed == ss[r].executed && t.lost == ss[r].lost
    requires forall i :: 0 <= i < |ss| && i != r ==> ServerOk(ss[i]) && LinkOk(ss, i)
    requires ServerOk(t) && LinkOk(ss[r := t], r)
    ensures AllOk(ss[r := t])
  {
    var v := ss[r := t];
    forall i | 0 <= i < |v| ensures ServerOk(v[i]) && LinkOk(v, i) {
      assert i != r ==> LinkOk(ss, i);
    }
  }

  lemma ReplyKeeps(ss: seq<Server>, r: nat, update: bool)
    requires AllOk(ss) && CanReply(ss, r)
    ensures AllOk(DoReply(ss, r, update))
  {
    var s, l := ss[r], ss[r].link;
    var slost := ReplicaLost(l.cont, Known(s));
    var t := (if slost != {} then Losing(s, slost) else s).(
      link := Streaming(l.m, l.attached, l.pending, l.mgap, l.sgap, l.maxgap, l.base, []));
    assert ServerOk(s) && LinkOk(ss, r);
    assert slost == {} ==> s.lost + slost == s.lost;
    Replied(s, ss[l.m]);
    if update || slost != {} {
      CutKeeps(ss, r, t, |ss|);
      assert CutAll(ss[r := t], r, r) == CutAll(ss[r := t], r, |ss|);
    } else {
      LinkKeeps(ss, r, t);
    }
  }

  lemma ReplyAllKeeps(ss: seq<Server>, r: nat)
    requires AllOk(ss) && CanReplyAll(ss, r)
    ensures AllOk(DoReplyAll(ss, r))
  {
    var s, l := ss[r], ss[r].link;
    var t := Reset(s, l.cont - l.contLost, l.contLost).(
      mode := Xsync, log := [], link := Streaming(l.m, l.attached, l.pending, {}, {}, 0, l.base, []));
    assert ServerOk(s) && LinkOk(ss, r) && ServerOk(ss[l.m]);
    RepliedAll(s, ss[l.m]);
    CutKeeps(ss, r, t, |ss|);
    assert CutAll(ss[r := t], r, r) == CutAll(ss[r := t], r, |ss|);
  }

  lemma AcceptAllKeeps(ss: seq<Server>, r: nat, m: nat, from: int)
    requires AllOk(ss) && CanAcceptAll(ss, r, m)
    ensures AllOk(DoAcceptAll(ss, r, m, from))
  {
    assert ServerOk(ss[m]) && ServerOk(ss[r]);
    AcceptedAll(ss[r], ss[m], m, from);
    LinkKeeps(ss, r, DoAcceptAll(ss, r, m, from)[r]);
  }

  lemma LoseTailKeeps(ss: seq<Server>, r: nat, k: nat)
    requires AllOk(ss) && CanLoseTail(ss, r, k)
    ensures AllOk(ss[r := ss[r].(link := ss[r].link.(pending := ss[r].link.pending[..k]))])
  {
    assert ServerOk(ss[r]) && LinkOk(ss, r);
    ItemsPrefix(ss[r].link.pending, k);
    LinkKeeps(ss, r, ss[r].(link := ss[r].link.(pending := ss[r].link.pending[..k])));
  }

  lemma StepKeepsOk(s: State, step: Step)
    requires AllOk(s.servers) && AllNumbered(s.servers) && Enabled(s, step)
    ensures AllOk(Next(s, step).servers)
    ensures s.ignored == 0 ==> Next(s, step).ignored == 0
  {
    hide AllNumbered, Numbered;
    var ss := s.servers;
    match step
    case Command(n, e) => CommandKeeps(ss, n, e);
    case Write(n, offset) => AllNumberedAt(ss, n); WriteKeeps(ss, n, offset);
    case Deliver(r, offset) => NeverIgnores(ss, r, offset); DeliverKeeps(ss, r, offset);
    case Trim(n, until) => TrimKeeps(ss, n, until);
    case Ask(r, m, maxgap) =>
      assert ServerOk(ss[r]);
      LinkKeeps(ss, r, ss[r].(link := Asked(m, Known(ss[r]), ss[r].lost, maxgap)));
    case Accept(r) => AcceptKeeps(ss, r);
    case AcceptPrev(r, k) => AcceptPrevKeeps(ss, r, k);
    case Reply(r, update) => ReplyKeeps(ss, r, update);
    case AcceptAll(r, m, from) => AcceptAllKeeps(ss, r, m, from);
    case ReplyAll(r) => ReplyAllKeeps(ss, r);
    case Disconnect(r) => assert ServerOk(ss[r]); LinkKeeps(ss, r, ss[r].(link := Idle));
    case CloseByMaster(r) =>
      assert ServerOk(ss[r]) && LinkOk(ss, r);
      LinkKeeps(ss, r, ss[r].(link := ss[r].link.(attached := false)));
    case LoseTail(r, k) => LoseTailKeeps(ss, r, k);
    case ToPsync(n) =>
      assert ServerOk(ss[n]);
      CutKeeps(ss, n, ss[n].(mode := Psync, link := Idle), -1);
    case ToXsync(n, uuid, executed, lost) =>
      CutKeeps(ss, n, Reset(ss[n].(uuid := uuid), executed, lost).(mode := Xsync, log := [], link := Idle), -1);
  }

  lemma AllNumberedAt(ss: seq<Server>, n: nat)
    requires AllNumbered(ss) && n < |ss|
    ensures Numbered(ss[n])
  {
  }
}
