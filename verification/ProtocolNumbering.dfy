/** Which steps keep the next number of every server beyond all that it knows, and what happens if one does not. */
module ProtocolNumbering {
  import opened Handshake
  import opened NextGnos
  import opened Protocol
  import opened ProtocolSafety
  import opened SeqLogs
  import opened SeqQueries
  import opened Tables

  // The server is not sent its own id at or beyond a next gno that it has chosen.
  predicate HeedsId(s: Server, x: Id) {
    x.uuid == s.uuid && s.curnext != 0 ==> x.gno < s.curnext
  }

  predicate Heeds(s: State, step: Step) {
    match step
    case Command(n, e) => n < |s.servers| ==> HeedsId(s.servers[n], IdOf(e))
    case Deliver(r, offset) => CanDeliver(s.servers, r, offset) ==> HeedsId(s.servers[r], s.servers[r].link.pending[0])
    case _ => true
  }

  lemma OwnWith(s: Server, x: Id)
    ensures GnosFor(s.executed + {x}, s.uuid) == Own(s) + (if x.uuid == s.uuid then {x.gno} else {})
  {
    var more := s.executed + {x};
    forall g
      ensures g in GnosFor(more, s.uuid) <==> g in Own(s) || (x.uuid == s.uuid && g == x.gno)
    {
      assert g in GnosFor(more, s.uuid) <==> Id(s.uuid, g) in more;
      assert g in Own(s) <==> Id(s.uuid, g) in s.executed;
    }
  }

  // Executing an id from outside keeps the numbering exactly if the server is to be sent it, and the next id is
  // then known already exactly if it is the one that had been chosen.
  lemma OutsideId(s: Server, t: Server, x: Id)
    requires Numbered(s) && t.uuid == s.uuid && t.curnext == s.curnext && t.lost == s.lost
    requires t.executed == s.executed + {x}
    ensures Numbered(t) <==> HeedsId(s, x)
    ensures NextId(t) in Known(t) <==> s.curnext != 0 && x == NextId(s)
  {
    OwnWith(s, x);
    var g := NextGno(t.curnext, Own(t));
    assert NextId(t) in t.executed <==> g in Own(t);
    assert NextId(t) in t.lost <==> g in OwnLost(t);
    if x.uuid == s.uuid {
      OutsideGno(s.curnext, x.gno, Own(s), OwnLost(s));
      OutsideGnoRepeats(s.curnext, x.gno, Own(s), OwnLost(s));
    } else {
      assert Own(t) == Own(s);
      NextIsUnknown(s);
    }
  }

  lemma LosingKeeps(s: Server, more: set<Id>)
    requires Numbered(s)
    ensures Numbered(Losing(s, more))
    ensures MayChoose(s.curnext, Own(s), GnosFor(s.lost + more, s.uuid))
  {
    var l := GnosFor(s.lost + more, s.uuid);
    AssertionFails(s.curnext, Own(s), l);
    UpdatedIsAhead(s.curnext, Own(s), l);
  }

  // More lost ids change the choice exactly if one of the own numbers has reached the next one.
  lemma LosingChooses(s: Server, more: set<Id>)
    requires s.curnext >= 0
    ensures var t := Losing(s, more);
      t.curnext == s.curnext <==> forall g :: g in GnosFor(s.lost + more, s.uuid) ==> g < NextGno(s.curnext, Own(s))
  {
    ChoiceStays(s.curnext, Own(s), GnosFor(s.lost + more, s.uuid));
  }

  // After a reset a number is chosen exactly if a lost one, of before or after, lies beyond all executed ones.
  lemma ResetChooses(s: Server, executed: set<Id>, lost: set<Id>)
    ensures Reset(s, executed, lost).curnext == 0 <==>
              forall g :: g in OwnLost(s) + GnosFor(lost, s.uuid) ==> Reached(g, GnosFor(executed, s.uuid))
  {
    var e, l, k := GnosFor(executed, s.uuid), OwnLost(s), GnosFor(lost, s.uuid);
    hide Reached;
    NoneIsChosen(e, l);
    NoneIsChosen(e, k);
    assert forall g :: g in l + k <==> g in l || g in k;
  }

  lemma ResetKeeps(s: Server, executed: set<Id>, lost: set<Id>)
    ensures Numbered(Reset(s, executed, lost))
  {
    var e, l := GnosFor(executed, s.uuid), GnosFor(lost, s.uuid);
    var c := Updated(0, e, OwnLost(s));
    assert NextGnos.Started(c, e);
    AssertionFails(c, e, l);
    UpdatedIsAhead(c, e, l);
  }

  ghost predicate SameNumbers(s: Server, t: Server) {
    t.uuid == s.uuid && t.executed == s.executed && t.lost == s.lost && t.curnext == s.curnext
  }

  lemma OneChanges(ss: seq<Server>, v: seq<Server>, n: nat)
    requires AllNumbered(ss) && |v| == |ss| && n < |ss| && Numbered(v[n])
    requires forall i :: 0 <= i < |ss| && i != n ==> SameNumbers(ss[i], v[i])
    ensures AllNumbered(v)
  {
    forall i | 0 <= i < |v|
      ensures Numbered(v[i])
    {
      assert i != n ==> SameNumbers(ss[i], v[i]) && Numbered(ss[i]);
    }
  }

  // ----- Every step -------------------------------------------------------------------------------------------

  // Server n executes x from outside.
  lemma OutsideKeeps(ss: seq<Server>, n: nat, t: Server, x: Id)
    requires AllNumbered(ss) && n < |ss| && HeedsId(ss[n], x)
    requires t.uuid == ss[n].uuid && t.curnext == ss[n].curnext && t.lost == ss[n].lost
    requires t.executed == ss[n].executed + {x}
    ensures AllNumbered(Feed(ss[n := t], n, x))
  {
    OutsideId(ss[n], t, x);
    hide Own, OwnLost, Known;
    var v := Feed(ss[n := t], n, x);
    hide Numbered;
    SameAs(t, v[n]);
    OneChanges(ss, v, n);
  }

  lemma SameAs(s: Server, t: Server)
    requires SameNumbers(s, t)
    ensures Numbered(s) <==> Numbered(t)
  {
  }

  lemma WriteNumbered(ss: seq<Server>, n: nat, offset: int)
    requires AllNumbered(ss) && CanWrite(ss, n, offset)
    ensures AllNumbered(DoWrite(ss, n, offset))
  {
    var s, x, v := ss[n], NextId(ss[n]), DoWrite(ss, n, offset);
    OwnWith(s, x);
    GeneratedKeepsAhead(s.curnext, Own(s), OwnLost(s));
    assert Numbered(v[n]);
    OneChanges(ss, v, n);
  }

  lemma AcceptNumbered(ss: seq<Server>, r: nat)
    requires AllNumbered(ss) && SmallGap(ss, r)
    ensures AllNumbered(DoAccept(ss, r))
  {
    var l, m := ss[r].link, ss[r].link.m;
    var loss := LossOf(ss[m], l.request);
    LosingKeeps(ss[m], loss);
    SameAs(Losing(ss[m], loss), Losing(ss[m], loss).(link := Idle));
    hide AllNumbered, Numbered, Losing, LossOf, AnswerOf, Answering, Gap;
    AnsweringNumbered(ss, r, m, Losing(ss[m], loss).(link := Idle), AnswerOf(ss[m], l), loss != {});
  }

  lemma AnsweringNumbered(ss: seq<Server>, r: nat, m: nat, t: Server, answer: Link, lossy: bool)
    requires AllNumbered(ss) && r < |ss| && m < |ss| && Numbered(t)
    ensures AllNumbered(Answering(ss, r, m, t, answer, lossy))
  {
    var v := Answering(ss, r, m, t, answer, lossy);
    hide Numbered;
    SameAs(if lossy then t else ss[m], v[m]);
    OneChanges(ss, v, m);
  }

  lemma AcceptPrevNumbered(ss: seq<Server>, r: nat, k: nat)
    requires AllNumbered(ss) && CanAcceptPrev(ss, r, k)
    ensures AllNumbered(DoAcceptPrev(ss, r, k))
  {
    AcceptNumbered(ss, r);
    hide AllNumbered, Numbered;
    OtherNumbered(DoAccept(ss, r), DoAcceptPrev(ss, r, k));
  }

  lemma ReplyNumbered(ss: seq<Server>, r: nat, update: bool)
    requires AllNumbered(ss) && CanReply(ss, r)
    ensures AllNumbered(DoReply(ss, r, update))
  {
    var slost := ReplicaLost(ss[r].link.cont, Known(ss[r]));
    LosingKeeps(ss[r], slost);
    hide Numbered, Losing, ReplicaLost;
    var v := DoReply(ss, r, update);
    SameAs(if slost != {} then Losing(ss[r], slost) else ss[r], v[r]);
    OneChanges(ss, v, r);
  }

  lemma ReplyAllNumbered(ss: seq<Server>, r: nat)
    requires AllNumbered(ss) && CanReplyAll(ss, r)
    ensures AllNumbered(DoReplyAll(ss, r))
  {
    var l, v := ss[r].link, DoReplyAll(ss, r);
    ResetKeeps(ss[r], l.cont - l.contLost, l.contLost);
    hide Numbered, Reset;
    SameAs(Reset(ss[r], l.cont - l.contLost, l.contLost), v[r]);
    OneChanges(ss, v, r);
  }

  lemma ToXsyncNumbered(ss: seq<Server>, n: nat, uuid: Uuid, executed: set<Id>, lost: set<Id>)
    requires AllNumbered(ss) && n < |ss|
    ensures AllNumbered(DoToXsync(ss, n, uuid, executed, lost))
  {
    var v := DoToXsync(ss, n, uuid, executed, lost);
    ResetKeeps(ss[n].(uuid := uuid), executed, lost);
    hide Numbered, Reset;
    SameAs(Reset(ss[n].(uuid := uuid), executed, lost), v[n]);
    OneChanges(ss, v, n);
  }

  // The other steps change links, logs and modes only.
  lemma OtherNumbered(ss: seq<Server>, v: seq<Server>)
    requires AllNumbered(ss) && |v| == |ss| && forall i :: 0 <= i < |ss| ==> SameNumbers(ss[i], v[i])
    ensures AllNumbered(v)
  {
    forall i | 0 <= i < |v|
      ensures Numbered(v[i])
    {
      SameAs(ss[i], v[i]);
    }
  }

  lemma StepKeepsNumbered(s: State, step: Step)
    requires AllNumbered(s.servers) && AllOk(s.servers) && Enabled(s, step) && Heeds(s, step)
    ensures AllNumbered(Next(s, step).servers)
  {
    hide AllNumbered, Numbered, AllOk, Known, SmallGap, Kept, IdsOf;
    var ss := s.servers;
    match step
    case Command(n, e) =>
      var t := ss[n];
      OutsideKeeps(ss, n, t.(executed := t.executed + {IdOf(e)}, log := t.log + [e], past := t.past + [IdOf(e)]), IdOf(e));
    case Write(n, offset) => WriteNumbered(ss, n, offset);
    case Deliver(r, offset) => DeliverNumbered(ss, r, offset);
    case Accept(r) => AcceptNumbered(ss, r);
    case AcceptPrev(r, k) => AcceptPrevNumbered(ss, r, k);
    case Reply(r, update) => ReplyNumbered(ss, r, update);
    case ReplyAll(r) => ReplyAllNumbered(ss, r);
    case ToXsync(n, uuid, executed, lost) => ToXsyncNumbered(ss, n, uuid, executed, lost);
    case _ => OtherNumbered(ss, Next(s, step).servers);
  }

  lemma DeliverNumbered(ss: seq<Server>, r: nat, offset: int)
    requires AllNumbered(ss) && AllOk(ss) && CanDeliver(ss, r, offset) && HeedsId(ss[r], ss[r].link.pending[0])
    ensures AllNumbered(DoDeliver(ss, r, offset))
  {
    NeverIgnores(ss, r, offset);
    var s, x := ss[r], ss[r].link.pending[0];
    hide AllNumbered, AllOk;
    OutsideKeeps(ss, r, s.(executed := s.executed + {x}, log := s.log + [LogEntry(x.uuid, x.gno, offset)],
                           past := s.past + [x], link := Taken(s.link)), x);
  }
}
