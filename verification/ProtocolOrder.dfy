/** In which order commands travel: what a replica takes is the stream of its master, command by command. */
module ProtocolOrder {
  import opened Handshake
  import opened NextGnos
  import opened Protocol
  import opened SeqLogs
  import opened SeqQueries
  import opened Tables

  ghost predicate EndsWith(s: seq<Id>, t: seq<Id>) {
    |t| <= |s| && s[|s| - |t|..] == t
  }

  predicate IsOpen(l: Link) {
    l.Answered? || l.Adopting? || l.Streaming?
  }

  // What the replica has taken from the link and what is under way, in order.
  function Way(l: Link): seq<Id> {
    match l
    case Answered(_, _, _, _, pending, _, _, _, _) => pending
    case Adopting(_, _, _, _, pending, _) => pending
    case Streaming(_, _, pending, _, _, _, _, taken) => taken + pending
    case _ => []
  }

  // The index keeps the latest commands of the stream, in order.
  ghost predicate Indexed(s: Server) {
    Ascending(s.log) && EndsWith(s.past, IdSeq(s.log))
  }

  // The way of the link is the master's stream from number "base" on, up to its end while the link is attached; and
  // what the replica has taken is the end of its own stream.
  ghost predicate LinkInOrder(ss: seq<Server>, r: nat)
    requires r < |ss|
  {
    var l := ss[r].link;
    && (!l.Idle? ==> l.m < |ss| && l.m != r)
    && (IsOpen(l) ==> Carries(ss[l.m].past, l.base, Way(l), l.attached))
    && (l.Streaming? ==> EndsWith(ss[r].past, l.taken))
  }

  ghost predicate Carries(past: seq<Id>, base: int, way: seq<Id>, attached: bool) {
    && 0 <= base <= base + |way| <= |past| && past[base..base + |way|] == way
    && (attached ==> base + |way| == |past|)
  }

  ghost predicate InOrder(ss: seq<Server>) {
    forall i :: 0 <= i < |ss| ==> Indexed(ss[i]) && LinkInOrder(ss, i)
  }

  // ----- Sequences ------------------------------------------------------------------------------------------

  lemma PassedOn(past: seq<Id>, base: int, way: seq<Id>, attached: bool, x: Id)
    requires Carries(past, base, way, attached)
    ensures attached ==> Carries(past + [x], base, way + [x], true)
    ensures Carries(past + [x], base, way, false)
  {
    assert (past + [x])[base..base + |way|] == way;
    if attached {
      assert (past + [x])[base..base + |way| + 1] == way + [x];
    }
  }

  lemma EndsWithMore(s: seq<Id>, t: seq<Id>, x: Id)
    requires EndsWith(s, t)
    ensures EndsWith(s + [x], t + [x])
  {
  }

  lemma IndexedMore(s: Server, t: Server, e: LogEntry)
    requires Indexed(s) && Beyond(s.log, e.offset) && t.log == s.log + [e] && t.past == s.past + [IdOf(e)]
    ensures Indexed(t)
  {
    assert IdSeq(t.log) == IdSeq(s.log) + [IdOf(e)];
    EndsWithMore(s.past, IdSeq(s.log), IdOf(e));
    forall i, j | 0 <= i < j < |t.log|
      ensures Before(t.log, i, j)
    {
      assert j < |s.log| ==> Before(s.log, i, j);
      assert i < |s.log| - 1 ==> Before(s.log, i, |s.log| - 1);
    }
  }

  // A part of the index from some entry on.
  lemma IndexedFrom(s: Server, t: Server, k: nat)
    requires Indexed(s) && k <= |s.log| && t.log == s.log[k..] && t.past == s.past
    ensures Indexed(t) && Carries(s.past, |s.past| - |t.log|, IdSeq(t.log), true)
  {
    assert IdSeq(t.log) == IdSeq(s.log)[k..];
    forall i, j | 0 <= i < j < |t.log|
      ensures Before(t.log, i, j)
    {
      assert Before(s.log, k + i, k + j);
    }
  }

  lemma {:induction false} KeptFrom(log: seq<LogEntry>, until: int) returns (k: nat)
    requires Ascending(log)
    ensures k <= |log| && Kept(log, until) == log[k..]
  {
    if log == [] {
      k := 0;
    } else if log[|log| - 1].offset < until {
      forall i | 0 <= i < |log|
        ensures log[i].offset < until
      {
        assert i < |log| - 1 ==> Before(log, i, |log| - 1);
      }
      KeptNone(log, until);
      k := |log|;
    } else {
      var p := log[..|log| - 1];
      forall i, j | 0 <= i < j < |p|
        ensures Before(p, i, j)
      {
        assert Before(log, i, j);
      }
      k := KeptFrom(p, until);
    }
  }

  // ----- One server changes ---------------------------------------------------------------------------------

  lemma OrderAt(ss: seq<Server>, i: nat)
    requires InOrder(ss) && i < |ss|
    ensures Indexed(ss[i]) && LinkInOrder(ss, i)
  {
  }

  // Server n passes x on.
  lemma PassKeeps(ss: seq<Server>, n: nat, t: Server, x: Id)
    requires InOrder(ss) && n < |ss| && t.past == ss[n].past + [x] && Indexed(t) && LinkInOrder(ss[n := t], n)
    ensures InOrder(Feed(ss[n := t], n, x))
  {
    var v := Feed(ss[n := t], n, x);
    forall i | 0 <= i < |v|
      ensures Indexed(v[i]) && LinkInOrder(v, i)
    {
      OrderAt(ss, i);
      hide InOrder, EndsWith, Carries, Ascending;
      if i != n {
        PassedTo(ss, n, t, x, i);
      } else {
        assert !t.link.Idle? ==> v[t.link.m].past == ss[t.link.m].past;
      }
    }
  }

  lemma PassedTo(ss: seq<Server>, n: nat, t: Server, x: Id, i: nat)
    requires n < |ss| && t.past == ss[n].past + [x] && i < |ss| && i != n && Indexed(ss[i]) && LinkInOrder(ss, i)
    ensures var v := Feed(ss[n := t], n, x); Indexed(v[i]) && LinkInOrder(v, i)
  {
    var v, l := Feed(ss[n := t], n, x), ss[i].link;
    hide EndsWith, Carries, Ascending;
    if IsOpen(l) && l.m == n {
      PassedOn(ss[n].past, l.base, Way(l), l.attached, x);
      assert l.Streaming? ==> l.taken + (l.pending + [x]) == (l.taken + l.pending) + [x];
    }
  }

  // Server n changes, but not its stream, and gets a link that is in order.
  lemma ChangeKeeps(ss: seq<Server>, n: nat, t: Server)
    requires InOrder(ss) && n < |ss| && t.past == ss[n].past && Indexed(t) && LinkInOrder(ss[n := t], n)
    ensures InOrder(ss[n := t])
  {
    var v := ss[n := t];
    forall i | 0 <= i < |v|
      ensures Indexed(v[i]) && LinkInOrder(v, i)
    {
      OrderAt(ss, i);
      hide InOrder, EndsWith, Carries, Indexed;
    }
  }

  lemma CutKeeps(ss: seq<Server>, m: nat, except: int)
    requires InOrder(ss)
    ensures InOrder(CutAll(ss, m, except))
  {
    var v := CutAll(ss, m, except);
    forall i | 0 <= i < |v|
      ensures Indexed(v[i]) && LinkInOrder(v, i)
    {
      OrderAt(ss, i);
      hide InOrder, Indexed, LinkInOrder, CutAll;
      CutKeepsOne(ss, m, except, i);
    }
  }

  lemma CutKeepsOne(ss: seq<Server>, m: nat, except: int, i: nat)
    requires i < |ss| && Indexed(ss[i]) && LinkInOrder(ss, i)
    ensures var v := CutAll(ss, m, except); Indexed(v[i]) && LinkInOrder(v, i)
  {
    var v, l := CutAll(ss, m, except), ss[i].link;
    hide EndsWith, Ascending, CutAll;
    assert Way(v[i].link) == Way(l);
    assert IsOpen(l) ==> v[l.m].past == ss[l.m].past;
  }

  lemma ClosedIsInOrder(ss: seq<Server>, n: nat, t: Server)
    requires n < |ss| && (t.link.Idle? || (t.link.Asked? && t.link.m < |ss| && t.link.m != n))
    ensures LinkInOrder(ss[n := t], n)
  {
  }

  // ----- Every step -----------------------------------------------------------------------------------------

  lemma CommandInOrder(ss: seq<Server>, n: nat, e: LogEntry)
    requires InOrder(ss) && CanCommand(ss, n, e)
    ensures InOrder(DoCommand(ss, n, e))
  {
    OrderAt(ss, n);
    var t := ss[n].(executed := ss[n].executed + {IdOf(e)}, log := ss[n].log + [e], past := ss[n].past + [IdOf(e)]);
    hide InOrder, Indexed;
    IndexedMore(ss[n], t, e);
    PassKeeps(ss, n, t, IdOf(e));
  }

  lemma WriteInOrder(ss: seq<Server>, n: nat, offset: int)
    requires InOrder(ss) && CanWrite(ss, n, offset)
    ensures InOrder(DoWrite(ss, n, offset))
  {
    OrderAt(ss, n);
    var x := NextId(ss[n]);
    var e := LogEntry(x.uuid, x.gno, offset);
    var t := ss[n].(executed := ss[n].executed + {x}, curnext := 0, log := ss[n].log + [e], past := ss[n].past + [x]);
    hide InOrder, Indexed, NextId;
    IndexedMore(ss[n], t, e);
    PassKeeps(ss, n, t, x);
  }

  lemma DeliverInOrder(ss: seq<Server>, r: nat, offset: int)
    requires InOrder(ss) && CanDeliver(ss, r, offset)
    ensures InOrder(DoDeliver(ss, r, offset))
  {
    OrderAt(ss, r);
    var s := ss[r];
    var x := s.link.pending[0];
    var e := LogEntry(x.uuid, x.gno, offset);
    var t := s.(executed := if Ignores(ss, r) then s.executed else s.executed + {x}, log := s.log + [e],
                past := s.past + [x], link := Taken(s.link));
    hide InOrder, Indexed, Ignores, Known;
    IndexedMore(s, t, e);
    TakenInOrder(s.past, s.link.taken, s.link.pending);
    PassKeeps(ss, r, t, x);
  }

  lemma TakenInOrder(past: seq<Id>, taken: seq<Id>, pending: seq<Id>)
    requires EndsWith(past, taken) && pending != []
    ensures EndsWith(past + [pending[0]], taken + [pending[0]])
    ensures (taken + [pending[0]]) + pending[1..] == taken + pending
  {
  }

  lemma TrimInOrder(ss: seq<Server>, n: nat, until: int)
    requires InOrder(ss) && n < |ss|
    ensures InOrder(ss[n := ss[n].(log := Kept(ss[n].log, until))])
  {
    hide *;
    OrderAt(ss, n);
    var t := ss[n].(log := Kept(ss[n].log, until));
    TrimmedIndex(ss[n], t, until);
    OnlyLog(ss, n, t);
    ChangeKeeps(ss, n, t);
  }

  lemma TrimmedIndex(s: Server, t: Server, until: int)
    requires Indexed(s) && t.log == Kept(s.log, until) && t.past == s.past
    ensures Indexed(t)
  {
    var k := KeptFrom(s.log, until);
    hide *;
    IndexedFrom(s, t, k);
  }

  lemma OnlyLog(ss: seq<Server>, n: nat, t: Server)
    requires n < |ss| && LinkInOrder(ss, n) && t.link == ss[n].link && t.past == ss[n].past
    ensures LinkInOrder(ss[n := t], n)
  {
    hide EndsWith, Carries;
  }

  // A link that begins with part of the master's index.
  lemma BeginsInOrder(ss: seq<Server>, r: nat, m: nat, k: nat, t: Server)
    requires InOrder(ss) && r < |ss| && m < |ss| && r != m && k <= |ss[m].log| && Indexed(t) && t.past == ss[r].past
    requires (t.link.Answered? || t.link.Adopting?) && t.link.m == m && t.link.attached
    requires t.link.base == |ss[m].past| - |ss[m].log[k..]| && t.link.pending == IdSeq(ss[m].log[k..])
    ensures InOrder(ss[r := t])
  {
    OrderAt(ss, m);
    hide InOrder, EndsWith, Ascending;
    IndexedFrom(ss[m], ss[m].(log := ss[m].log[k..]), k);
    ChangeKeeps(ss, r, t);
  }

  lemma AcceptInOrder(ss: seq<Server>, r: nat)
    requires InOrder(ss) && SmallGap(ss, r)
    ensures InOrder(DoAccept(ss, r))
  {
    OrderAt(ss, r);
    var l, m := ss[r].link, ss[r].link.m;
    OrderAt(ss, m);
    var loss, answer := LossOf(ss[m], l.request), AnswerOf(ss[m], l);
    var t := Losing(ss[m], loss).(link := Idle);
    hide InOrder, Indexed, Gap, IdsOf, Updated, MasterLost, LossOf;
    if loss != {} {
      SameIndex(ss[m], t);
      ClosedIsInOrder(ss, m, t);
      ChangeKeeps(ss, m, t);
      CutKeeps(ss[m := t], m, r);
      Answered1(CutAll(ss[m := t], m, r), r, m, answer, Start(ss[m].log, l.request));
    } else {
      Answered1(ss, r, m, answer, Start(ss[m].log, l.request));
    }
  }

  lemma SameIndex(s: Server, t: Server)
    requires Indexed(s) && t.log == s.log && t.past == s.past
    ensures Indexed(t)
  {
  }

  lemma Answered1(ss: seq<Server>, r: nat, m: nat, answer: Link, k: nat)
    requires InOrder(ss) && r < |ss| && m < |ss| && r != m && k <= |ss[m].log|
    requires answer.Answered? && answer.m == m && answer.attached
    requires answer.base == |ss[m].past| - |ss[m].log[k..]| && answer.pending == IdSeq(ss[m].log[k..])
    ensures InOrder(ss[r := ss[r].(link := answer)])
  {
    OrderAt(ss, r);
    hide InOrder, Indexed;
    SameIndex(ss[r], ss[r].(link := answer));
    BeginsInOrder(ss, r, m, k, ss[r].(link := answer));
  }

  // Less is under way, or the link is no longer attached.
  lemma LessKeeps(ss: seq<Server>, r: nat, t: Server, k: nat)
    requires InOrder(ss) && r < |ss| && IsOpen(ss[r].link) && IsOpen(t.link) && k <= |Way(ss[r].link)|
    requires t.past == ss[r].past && t.log == ss[r].log && t.link.m == ss[r].link.m && t.link.base == ss[r].link.base
    requires Way(t.link) == Way(ss[r].link)[..k] && (t.link.attached ==> ss[r].link.attached && k == |Way(ss[r].link)|)
    requires t.link.Streaming? ==> t.link.taken == if ss[r].link.Streaming? then ss[r].link.taken else []
    ensures InOrder(ss[r := t])
  {
    OrderAt(ss, r);
    var l := ss[r].link;
    assert Way(l)[..|Way(l)|] == Way(l);
    assert ss[l.m].past[l.base..l.base + |Way(l)|][..k] == ss[l.m].past[l.base..l.base + k];
    SameIndex(ss[r], t);
    hide InOrder, Indexed;
    ChangeKeeps(ss, r, t);
  }

  lemma AcceptPrevInOrder(ss: seq<Server>, r: nat, k: nat)
    requires InOrder(ss) && CanAcceptPrev(ss, r, k)
    ensures InOrder(DoAcceptPrev(ss, r, k))
  {
    AcceptInOrder(ss, r);
    AcceptOpens(ss, r, k);
    var v := DoAccept(ss, r);
    hide InOrder, DoAccept, Gap, Suffix, IdsOf;
    LessKeeps(v, r, v[r].(link := Shortened(v[r].link, k)), k);
  }

  lemma AcceptOpens(ss: seq<Server>, r: nat, k: nat)
    requires CanAcceptPrev(ss, r, k)
    ensures var v := DoAccept(ss, r); r < |v| && v[r].link.Answered? && k <= |v[r].link.pending|
  {
    hide Gap, Known, IdsOf, Losing;
  }

  lemma ReplyInOrder(ss: seq<Server>, r: nat, update: bool)
    requires InOrder(ss) && CanReply(ss, r)
    ensures InOrder(DoReply(ss, r, update))
  {
    var s, l := ss[r], ss[r].link;
    var slost := ReplicaLost(l.cont, Known(s));
    var t := (if slost != {} then Losing(s, slost) else s).(
      link := Streaming(l.m, l.attached, l.pending, l.mgap, l.sgap, l.maxgap, l.base, []));
    hide InOrder, Known, ReplicaLost, Updated;
    assert [] + l.pending == l.pending[..|l.pending|];
    LessKeeps(ss, r, t, |l.pending|);
    CutKeeps(ss[r := t], r, r);
  }

  lemma ReplyAllInOrder(ss: seq<Server>, r: nat)
    requires InOrder(ss) && CanReplyAll(ss, r)
    ensures InOrder(DoReplyAll(ss, r))
  {
    OrderAt(ss, r);
    var s, l := ss[r], ss[r].link;
    var u := Reset(s, l.cont - l.contLost, l.contLost);
    var t := u.(mode := Xsync, log := [], link := Streaming(l.m, l.attached, l.pending, {}, {}, 0, l.base, []));
    assert IdSeq([]) == [] && [] + l.pending == l.pending;
    hide InOrder, Updated;
    ChangeKeeps(ss, r, t);
    CutKeeps(ss[r := t], r, r);
  }

  lemma AcceptAllInOrder(ss: seq<Server>, r: nat, m: nat, from: int)
    requires InOrder(ss) && CanAcceptAll(ss, r, m)
    ensures InOrder(DoAcceptAll(ss, r, m, from))
  {
    OrderAt(ss, r);
    OrderAt(ss, m);
    var k := KeptFrom(ss[m].log, from);
    hide InOrder, Indexed, Kept, IdsOf, Known;
    var t := DoAcceptAll(ss, r, m, from)[r];
    SameIndex(ss[r], t);
    BeginsInOrder(ss, r, m, k, t);
  }

  // Server n has a link that is not open, and all links to it have been cut.
  lemma ResetInOrder(ss: seq<Server>, n: nat, t: Server)
    requires InOrder(ss) && n < |ss| && t.past == ss[n].past && Indexed(t)
    requires t.link.Idle? || (t.link.Asked? && t.link.m < |ss| && t.link.m != n)
    ensures InOrder(ss[n := t]) && InOrder(CutAll(ss[n := t], n, -1))
  {
    hide InOrder, Indexed;
    ClosedIsInOrder(ss, n, t);
    ChangeKeeps(ss, n, t);
    CutKeeps(ss[n := t], n, -1);
  }

  lemma EmptyIndexed(t: Server)
    requires t.log == []
    ensures Indexed(t)
  {
    assert IdSeq([]) == [];
  }

  lemma LoseTailInOrder(ss: seq<Server>, r: nat, k: nat)
    requires InOrder(ss) && CanLoseTail(ss, r, k)
    ensures InOrder(ss[r := ss[r].(link := ss[r].link.(pending := ss[r].link.pending[..k]))])
  {
    var l := ss[r].link;
    var t := ss[r].(link := l.(pending := l.pending[..k]));
    var n := |Way(l)| - |l.pending| + k;
    assert Way(t.link) == Way(l)[..n];
    hide InOrder;
    LessKeeps(ss, r, t, n);
  }

  lemma CloseInOrder(ss: seq<Server>, r: nat)
    requires InOrder(ss) && CanClose(ss, r)
    ensures InOrder(ss[r := ss[r].(link := ss[r].link.(attached := false))])
  {
    var l := ss[r].link;
    assert Way(l)[..|Way(l)|] == Way(l);
    hide InOrder;
    LessKeeps(ss, r, ss[r].(link := l.(attached := false)), |Way(l)|);
  }

  lemma StepKeepsOrder(s: State, step: Step)
    requires InOrder(s.servers) && Enabled(s, step)
    ensures InOrder(Next(s, step).servers)
  {
    hide InOrder, Indexed, DoCommand, DoWrite, DoDeliver, DoAccept, DoAcceptPrev, DoReply, DoReplyAll, DoAcceptAll, CutAll;
    hide Kept, Known, SmallGap, Losing, Reset;
    var ss := s.servers;
    match step
    case Command(n, e) => CommandInOrder(ss, n, e);
    case Write(n, offset) => WriteInOrder(ss, n, offset);
    case Deliver(r, offset) => DeliverInOrder(ss, r, offset);
    case Trim(n, until) => TrimInOrder(ss, n, until);
    case Ask(r, m, maxgap) => AskInOrder(ss, r, m, maxgap);
    case Accept(r) => AcceptInOrder(ss, r);
    case AcceptPrev(r, k) => AcceptPrevInOrder(ss, r, k);
    case Reply(r, update) => ReplyInOrder(ss, r, update);
    case AcceptAll(r, m, from) => AcceptAllInOrder(ss, r, m, from);
    case ReplyAll(r) => ReplyAllInOrder(ss, r);
    case Disconnect(r) => DisconnectInOrder(ss, r);
    case CloseByMaster(r) => CloseInOrder(ss, r);
    case LoseTail(r, k) => LoseTailInOrder(ss, r, k);
    case ToPsync(n) => ToPsyncInOrder(ss, n);
    case ToXsync(n, uuid, executed, lost) => ToXsyncInOrder(ss, n, uuid, executed, lost);
  }

  lemma AskInOrder(ss: seq<Server>, r: nat, m: nat, maxgap: nat)
    requires InOrder(ss) && CanAsk(ss, r, m)
    ensures InOrder(DoAsk(ss, r, m, maxgap))
  {
    OrderAt(ss, r);
    hide InOrder, Indexed;
    SameIndex(ss[r], DoAsk(ss, r, m, maxgap)[r]);
    ResetInOrder(ss, r, DoAsk(ss, r, m, maxgap)[r]);
  }

  lemma DisconnectInOrder(ss: seq<Server>, r: nat)
    requires InOrder(ss) && r < |ss|
    ensures InOrder(ss[r := ss[r].(link := Idle)])
  {
    OrderAt(ss, r);
    hide InOrder, Indexed;
    SameIndex(ss[r], ss[r].(link := Idle));
    ResetInOrder(ss, r, ss[r].(link := Idle));
  }

  lemma ToPsyncInOrder(ss: seq<Server>, n: nat)
    requires InOrder(ss) && n < |ss|
    ensures InOrder(DoToPsync(ss, n))
  {
    OrderAt(ss, n);
    hide InOrder, Indexed;
    SameIndex(ss[n], ss[n].(mode := Psync, link := Idle));
    ResetInOrder(ss, n, ss[n].(mode := Psync, link := Idle));
  }

  lemma ToXsyncInOrder(ss: seq<Server>, n: nat, uuid: Uuid, executed: set<Id>, lost: set<Id>)
    requires InOrder(ss) && n < |ss|
    ensures InOrder(DoToXsync(ss, n, uuid, executed, lost))
  {
    hide InOrder, Indexed, Updated;
    var t := Reset(ss[n].(uuid := uuid), executed, lost).(mode := Xsync, log := [], link := Idle);
    EmptyIndexed(t);
    ResetInOrder(ss, n, t);
  }
}
