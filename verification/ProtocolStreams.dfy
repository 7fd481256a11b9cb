/** Over whole runs: what travels on a link is the master's stream, in order and without a gap. */
module ProtocolStreams {
  import opened Handshake
  import opened NextGnos
  import opened Protocol
  import opened ProtocolOrder
  import opened ProtocolRuns
  import opened ProtocolSafety
  import opened SeqLogs
  import opened SeqQueries
  import opened Tables

  // Any run from s to t.
  ghost predicate Leads(s: State, steps: seq<Step>, t: State)
    decreases |steps|
  {
    if steps == [] then t == s else Enabled(s, steps[0]) && Leads(Next(s, steps[0]), steps[1..], t)
  }

  lemma StartsInOrder(s: State)
    requires Initial(s)
    ensures InOrder(s.servers)
  {
    forall i | 0 <= i < |s.servers|
      ensures Indexed(s.servers[i]) && LinkInOrder(s.servers, i)
    {
      EmptyIndexed(s.servers[i]);
    }
  }

  lemma {:induction false} RunIsInOrder(s: State, steps: seq<Step>, t: State)
    requires InOrder(s.servers) && Leads(s, steps, t)
    ensures InOrder(t.servers)
    decreases |steps|
  {
    hide InOrder, Enabled, Next;
    if steps != [] {
      StepKeepsOrder(s, steps[0]);
      RunIsInOrder(Next(s, steps[0]), steps[1..], t);
    }
  }

  // Over every run: what a replica has taken from a link and what is under way is the master's stream from the number
  // on where the link began, up to its end while the link is attached. The replica has passed it on in that order, and
  // the index of every server is the end of its stream.
  lemma Ordering(s: State, steps: seq<Step>, t: State, r: nat)
    requires Initial(s) && Leads(s, steps, t) && r < |t.servers| && t.servers[r].link.Streaming?
    ensures var l := t.servers[r].link;
      && l.m < |t.servers| && 0 <= l.base <= |t.servers[l.m].past| && l.taken + l.pending <= t.servers[l.m].past[l.base..]
      && (l.attached ==> l.taken + l.pending == t.servers[l.m].past[l.base..])
    ensures EndsWith(t.servers[r].past, t.servers[r].link.taken)
    ensures EndsWith(t.servers[r].past, IdSeq(t.servers[r].log))
  {
    StartsInOrder(s);
    RunIsInOrder(s, steps, t);
    OrderAt(t.servers, r);
    var l := t.servers[r].link;
    assert t.servers[l.m].past[l.base..][..|Way(l)|] == Way(l);
  }

  // ----- From the continue point on -------------------------------------------------------------------------

  ghost predicate Grown(p: seq<Id>, q: seq<Id>) {
    p <= q
  }

  // It is the same link, and no stream has lost anything.
  ghost predicate GoesOn(ss: seq<Server>, tt: seq<Server>, r: nat) {
    && |tt| == |ss| && r < |ss| && IsOpen(ss[r].link) && IsOpen(tt[r].link)
    && tt[r].link.m == ss[r].link.m && tt[r].link.base == ss[r].link.base
    && forall i :: 0 <= i < |ss| ==> Grown(ss[i].past, tt[i].past)
  }

  lemma Longer(p: seq<Id>, x: Id)
    ensures Grown(p, p + [x]) && Grown(p, p)
  {
  }

  ghost predicate SameLink(l: Link, k: Link) {
    IsOpen(l) && IsOpen(k) ==> k.m == l.m && k.base == l.base
  }

  lemma FeedGoesOn(ss: seq<Server>, n: nat, t: Server, x: Id, r: nat)
    requires n < |ss| && r < |ss| && t.past == ss[n].past + [x] && IsOpen(ss[r].link)
    requires n == r ==> IsOpen(t.link) && SameLink(ss[r].link, t.link)
    ensures GoesOn(ss, Feed(ss[n := t], n, x), r)
  {
    Longer(ss[n].past, x);
    var v := Feed(ss[n := t], n, x);
    forall i | 0 <= i < |ss|
      ensures Grown(ss[i].past, v[i].past)
    {
      Longer(ss[i].past, x);
    }
  }

  lemma ChangeGoesOn(ss: seq<Server>, n: nat, t: Server, r: nat)
    requires n < |ss| && r < |ss| && t.past == ss[n].past && IsOpen(ss[r].link)
    requires n == r ==> IsOpen(t.link) && SameLink(ss[r].link, t.link)
    ensures GoesOn(ss, ss[n := t], r)
  {
  }

  lemma CutGoesOn(ss: seq<Server>, tt: seq<Server>, m: nat, except: int, r: nat)
    requires GoesOn(ss, tt, r)
    ensures GoesOn(ss, CutAll(tt, m, except), r)
  {
    hide Grown;
    var v := CutAll(tt, m, except);
    forall i | 0 <= i < |ss|
      ensures Grown(ss[i].past, v[i].past)
    {
      assert Grown(ss[i].past, tt[i].past);
    }
  }

  lemma AcceptGoesOn(ss: seq<Server>, q: nat, r: nat)
    requires SmallGap(ss, q) && r < |ss| && IsOpen(ss[r].link)
    requires r < |DoAccept(ss, q)| && IsOpen(DoAccept(ss, q)[r].link)
    ensures GoesOn(ss, DoAccept(ss, q), r)
  {
    hide Gap, Suffix, IdsOf, LossOf, Updated, GoesOn;
    var l, m := ss[q].link, ss[q].link.m;
    var loss, answer := LossOf(ss[m], l.request), AnswerOf(ss[m], l);
    var t := Losing(ss[m], loss).(link := Idle);
    hide AnswerOf;
    if loss != {} {
      assert CutAll(ss[m := t], m, q)[m].link == Idle && q != r;
      ChangeGoesOn(ss, m, t, r);
      CutGoesOn(ss, ss[m := t], m, q, r);
      AlsoChanged(ss, CutAll(ss[m := t], m, q), q, answer, r);
    } else {
      ChangeGoesOn(ss, q, ss[q].(link := answer), r);
    }
  }

  lemma AlsoChanged(ss: seq<Server>, tt: seq<Server>, q: nat, k: Link, r: nat)
    requires GoesOn(ss, tt, r) && q < |tt| && q != r
    ensures GoesOn(ss, tt[q := tt[q].(link := k)], r)
  {
    hide Grown;
    var v := tt[q := tt[q].(link := k)];
    forall i | 0 <= i < |ss|
      ensures Grown(ss[i].past, v[i].past)
    {
      assert Grown(ss[i].past, tt[i].past);
    }
  }

  lemma AcceptPrevGoesOn(ss: seq<Server>, q: nat, k: nat, r: nat)
    requires CanAcceptPrev(ss, q, k) && r < |ss| && IsOpen(ss[r].link)
    requires r < |DoAcceptPrev(ss, q, k)| && IsOpen(DoAcceptPrev(ss, q, k)[r].link)
    ensures GoesOn(ss, DoAcceptPrev(ss, q, k), r)
  {
    AcceptOpens(ss, q, k);
    hide DoAccept, Gap, Suffix, IdsOf, GoesOn;
    var v := DoAccept(ss, q);
    assert q != r;
    assert DoAcceptPrev(ss, q, k)[r] == v[r];
    AcceptGoesOn(ss, q, r);
    AlsoChanged(ss, v, q, Shortened(v[q].link, k), r);
  }

  lemma ReplyGoesOn(ss: seq<Server>, q: nat, update: bool, r: nat)
    requires CanReply(ss, q) && r < |ss| && IsOpen(ss[r].link)
    ensures GoesOn(ss, DoReply(ss, q, update), r)
  {
    hide Known, ReplicaLost, Updated, GoesOn;
    var s, l := ss[q], ss[q].link;
    var slost := ReplicaLost(l.cont, Known(s));
    var t := (if slost != {} then Losing(s, slost) else s).(
      link := Streaming(l.m, l.attached, l.pending, l.mgap, l.sgap, l.maxgap, l.base, []));
    ChangeGoesOn(ss, q, t, r);
    CutGoesOn(ss, ss[q := t], q, q, r);
  }

  lemma ReplyAllGoesOn(ss: seq<Server>, q: nat, r: nat)
    requires CanReplyAll(ss, q) && r < |ss| && IsOpen(ss[r].link)
    ensures GoesOn(ss, DoReplyAll(ss, q), r)
  {
    hide Updated, GoesOn;
    var l := ss[q].link;
    var t := Reset(ss[q], l.cont - l.contLost, l.contLost).(
      mode := Xsync, log := [], link := Streaming(l.m, l.attached, l.pending, {}, {}, 0, l.base, []));
    ChangeGoesOn(ss, q, t, r);
    CutGoesOn(ss, ss[q := t], q, q, r);
  }

  lemma ModeGoesOn(ss: seq<Server>, n: nat, t: Server, r: nat)
    requires n < |ss| && r < |ss| && t.past == ss[n].past && t.link.Idle? && IsOpen(ss[r].link) && n != r
    ensures GoesOn(ss, CutAll(ss[n := t], n, -1), r)
  {
    hide GoesOn;
    ChangeGoesOn(ss, n, t, r);
    CutGoesOn(ss, ss[n := t], n, -1, r);
  }

  lemma StepGoesOn(s: State, step: Step, r: nat)
    requires Enabled(s, step) && r < |s.servers| && IsOpen(s.servers[r].link)
    requires r < |Next(s, step).servers| && IsOpen(Next(s, step).servers[r].link)
    ensures GoesOn(s.servers, Next(s, step).servers, r)
  {
    hide Known, IdsOf, IdSeq, Gap, Kept, Continue, Beyond, Updated, NextId, GoesOn;
    hide DoAccept, DoAcceptPrev, DoReply, DoReplyAll;
    var ss := s.servers;
    match step
    case Command(n, e) =>
      FeedGoesOn(ss, n, ss[n].(executed := ss[n].executed + {IdOf(e)}, log := ss[n].log + [e],
                               past := ss[n].past + [IdOf(e)]), IdOf(e), r);
    case Write(n, offset) =>
      var x := NextId(ss[n]);
      FeedGoesOn(ss, n, ss[n].(executed := ss[n].executed + {x}, curnext := 0,
                               log := ss[n].log + [LogEntry(x.uuid, x.gno, offset)], past := ss[n].past + [x]), x, r);
    case Deliver(q, offset) => DeliverGoesOn(ss, q, offset, r);
    case Trim(n, until) => ChangeGoesOn(ss, n, ss[n].(log := Kept(ss[n].log, until)), r);
    case Ask(q, m, maxgap) => ChangeGoesOn(ss, q, DoAsk(ss, q, m, maxgap)[q], r);
    case Accept(q) => AcceptGoesOn(ss, q, r);
    case AcceptPrev(q, k) => AcceptPrevGoesOn(ss, q, k, r);
    case Reply(q, update) => ReplyGoesOn(ss, q, update, r);
    case AcceptAll(q, m, from) => ChangeGoesOn(ss, q, DoAcceptAll(ss, q, m, from)[q], r);
    case ReplyAll(q) => ReplyAllGoesOn(ss, q, r);
    case Disconnect(q) => ChangeGoesOn(ss, q, ss[q].(link := Idle), r);
    case CloseByMaster(q) => ChangeGoesOn(ss, q, ss[q].(link := ss[q].link.(attached := false)), r);
    case LoseTail(q, k) => ChangeGoesOn(ss, q, ss[q].(link := ss[q].link.(pending := ss[q].link.pending[..k])), r);
    case ToPsync(n) => ModeGoesOn(ss, n, ss[n].(mode := Psync, link := Idle), r);
    case ToXsync(n, uuid, executed, lost) =>
      ModeGoesOn(ss, n, Reset(ss[n].(uuid := uuid), executed, lost).(mode := Xsync, log := [], link := Idle), r);
  }

  lemma DeliverGoesOn(ss: seq<Server>, q: nat, offset: int, r: nat)
    requires CanDeliver(ss, q, offset) && r < |ss| && IsOpen(ss[r].link)
    ensures GoesOn(ss, DoDeliver(ss, q, offset), r)
  {
    var s, x := ss[q], ss[q].link.pending[0];
    var t := s.(executed := if Ignores(ss, q) then s.executed else s.executed + {x},
                log := s.log + [LogEntry(x.uuid, x.gno, offset)], past := s.past + [x], link := Taken(s.link));
    hide Ignores, GoesOn;
    FeedGoesOn(ss, q, t, x, r);
  }

  // A run from s to t on which the link of r is open all the time.
  ghost predicate Keeps(s: State, steps: seq<Step>, t: State, r: nat)
    decreases |steps|
  {
    && r < |s.servers| && IsOpen(s.servers[r].link)
    && if steps == [] then t == s else Enabled(s, steps[0]) && Keeps(Next(s, steps[0]), steps[1..], t, r)
  }

  lemma {:induction false} RunGoesOn(s: State, steps: seq<Step>, t: State, r: nat)
    requires InOrder(s.servers) && Keeps(s, steps, t, r)
    ensures InOrder(t.servers) && GoesOn(s.servers, t.servers, r)
    decreases |steps|
  {
    hide InOrder, Enabled, Next, GoesOn;
    if steps == [] {
      NothingLost(s.servers, r);
    } else {
      var u := Next(s, steps[0]);
      StepKeepsOrder(s, steps[0]);
      IsKept(u, steps[1..], t, r);
      StepGoesOn(s, steps[0], r);
      RunGoesOn(u, steps[1..], t, r);
      GoesOnTwice(s.servers, u.servers, t.servers, r);
    }
  }

  lemma IsKept(s: State, steps: seq<Step>, t: State, r: nat)
    requires Keeps(s, steps, t, r)
    ensures r < |s.servers| && IsOpen(s.servers[r].link)
  {
  }

  lemma NothingLost(ss: seq<Server>, r: nat)
    requires r < |ss| && IsOpen(ss[r].link)
    ensures GoesOn(ss, ss, r)
  {
  }

  lemma GoesOnTwice(ss: seq<Server>, tt: seq<Server>, uu: seq<Server>, r: nat)
    requires GoesOn(ss, tt, r) && GoesOn(tt, uu, r)
    ensures GoesOn(ss, uu, r)
  {
    forall i | 0 <= i < |ss|
      ensures Grown(ss[i].past, uu[i].past)
    {
      assert Grown(ss[i].past, tt[i].past) && Grown(tt[i].past, uu[i].past);
    }
  }

  // What has passed through a server's stream since state s.
  ghost function Since(s: Server, t: Server): seq<Id> {
    if |s.past| <= |t.past| then t.past[|s.past|..] else []
  }

  // From any state where a link is open, over any run that keeps it: what the replica has taken and what is under way
  // begins with the master's stream up to that state, from number "base" on, and goes on with what has passed since.
  lemma WayGoesOn(s: State, steps: seq<Step>, t: State, r: nat)
    requires InOrder(s.servers) && Keeps(s, steps, t, r)
    ensures |t.servers| == |s.servers| && IsOpen(t.servers[r].link)
    ensures var k, l := s.servers[r].link, t.servers[r].link;
      && l.m == k.m < |s.servers| && 0 <= k.base <= |s.servers[k.m].past|
      && (var stream := s.servers[k.m].past[k.base..] + Since(s.servers[k.m], t.servers[k.m]);
          Way(l) <= stream && (l.attached ==> Way(l) == stream))
    ensures t.servers[r].link.Streaming? ==> EndsWith(t.servers[r].past, t.servers[r].link.taken)
  {
    IsKept(s, steps, t, r);
    RunGoesOn(s, steps, t, r);
    OrderAt(s.servers, r);
    OrderAt(t.servers, r);
    var k, l := s.servers[r].link, t.servers[r].link;
    assert Grown(s.servers[k.m].past, t.servers[k.m].past);
    hide InOrder, Keeps, EndsWith, Indexed;
    WayOf(s.servers[k.m].past, t.servers[k.m].past, k.base, Way(l), l.attached);
  }

  lemma WayOf(p: seq<Id>, q: seq<Id>, base: int, way: seq<Id>, attached: bool)
    requires p <= q && 0 <= base <= |p| && Carries(q, base, way, attached)
    ensures way <= p[base..] + q[|p|..] && (attached ==> way == p[base..] + q[|p|..])
  {
    assert p[base..] + q[|p|..] == q[base..];
    assert q[base..][..|way|] == way;
  }

  // After a request has been accepted: what the replica takes is, in order, the master's index from the continue point
  // on and then what has passed through the master's stream since.
  lemma StreamIsInOrder(s: State, r: nat, m: nat, steps: seq<Step>, t: State)
    requires r < |s.servers| && m < |s.servers| && s.servers[r].link.Asked? && s.servers[r].link.m == m
    requires InOrder(s.servers) && Enabled(s, Accept(r)) && Keeps(Next(s, Accept(r)), steps, t, r)
    ensures |t.servers| == |s.servers| && IsOpen(t.servers[r].link)
    ensures var l := t.servers[r].link;
      var stream := IdSeq(Suffix(s.servers[m], s.servers[r].link.request)) + Since(s.servers[m], t.servers[m]);
      l.m == m && Way(l) <= stream && (l.attached ==> Way(l) == stream)
    ensures t.servers[r].link.Streaming? ==> EndsWith(t.servers[r].past, t.servers[r].link.taken)
  {
    hide InOrder, DoAccept, EndsWith, Keeps, Since, Gap, Suffix;
    StepKeepsOrder(s, Accept(r));
    AcceptBegins(s.servers, r);
    WayGoesOn(Next(s, Accept(r)), steps, t, r);
    SameSince(s.servers[m], Next(s, Accept(r)).servers[m], t.servers[m]);
  }

  lemma AcceptBegins(ss: seq<Server>, r: nat)
    requires InOrder(ss) && CanAccept(ss, r)
    ensures var v, m := DoAccept(ss, r), ss[r].link.m;
      && |v| == |ss| && v[r].link.Answered? && v[r].link.m == m && v[m].past == ss[m].past
      && 0 <= v[r].link.base <= |ss[m].past|
      && ss[m].past[v[r].link.base..] == IdSeq(Suffix(ss[m], ss[r].link.request))
  {
    hide InOrder, Indexed, LinkInOrder, Gap, DoAccept, Suffix, IdSeq, EndsWith;
    OrderAt(ss, r);
    AskedOther(ss, r);
    var m, request := ss[r].link.m, ss[r].link.request;
    OrderAt(ss, m);
    AcceptedLink(ss, r);
    AnswerBase(ss[m], request);
  }

  lemma AskedOther(ss: seq<Server>, r: nat)
    requires r < |ss| && LinkInOrder(ss, r) && ss[r].link.Asked?
    ensures ss[r].link.m < |ss| && ss[r].link.m != r
  {
  }

  lemma AcceptedLink(ss: seq<Server>, r: nat)
    requires CanAccept(ss, r) && ss[r].link.m != r
    ensures var v, m := DoAccept(ss, r), ss[r].link.m;
      && |v| == |ss| && v[r].link.Answered? && v[r].link.m == m && v[m].past == ss[m].past
      && v[r].link.base == |ss[m].past| - |Suffix(ss[m], ss[r].link.request)|
  {
    hide Gap, IdsOf, LossOf, Updated, Suffix, Known, Continue, MasterGap, ReplicaGap;
  }

  lemma AnswerBase(s: Server, request: set<Id>)
    requires Indexed(s)
    ensures var q := Suffix(s, request);
      |q| <= |s.past| && s.past[|s.past| - |q|..] == IdSeq(q)
  {
    hide Indexed, IdSeq;
    SuffixOfPast(s, Start(s.log, request));
  }

  lemma SuffixOfPast(s: Server, k: nat)
    requires Indexed(s) && k <= |s.log|
    ensures |s.log[k..]| <= |s.past| && s.past[|s.past| - |s.log[k..]|..] == IdSeq(s.log[k..])
  {
    IndexedFrom(s, s.(log := s.log[k..]), k);
  }

  // The same after a replica has been told to take over the master's sets: from offset "from" of the index on.
  lemma AdoptedStreamIsInOrder(s: State, r: nat, m: nat, from: int, steps: seq<Step>, t: State)
    requires InOrder(s.servers) && CanAcceptAll(s.servers, r, m) && Keeps(Next(s, AcceptAll(r, m, from)), steps, t, r)
    ensures |t.servers| == |s.servers| && IsOpen(t.servers[r].link)
    ensures var l := t.servers[r].link;
      var stream := IdSeq(Kept(s.servers[m].log, from)) + Since(s.servers[m], t.servers[m]);
      l.m == m && Way(l) <= stream && (l.attached ==> Way(l) == stream)
    ensures t.servers[r].link.Streaming? ==> EndsWith(t.servers[r].past, t.servers[r].link.taken)
  {
    hide InOrder, DoAcceptAll, EndsWith, Keeps, Since;
    StepKeepsOrder(s, AcceptAll(r, m, from));
    AdoptionBegins(s.servers, r, m, from);
    WayGoesOn(Next(s, AcceptAll(r, m, from)), steps, t, r);
    SameSince(s.servers[m], Next(s, AcceptAll(r, m, from)).servers[m], t.servers[m]);
  }

  lemma SameSince(s: Server, u: Server, t: Server)
    requires u.past == s.past
    ensures Since(s, t) == Since(u, t)
  {
  }

  lemma AdoptionBegins(ss: seq<Server>, r: nat, m: nat, from: int)
    requires InOrder(ss) && CanAcceptAll(ss, r, m)
    ensures var v := DoAcceptAll(ss, r, m, from);
      && |v| == |ss| && v[r].link.Adopting? && v[r].link.m == m && v[m].past == ss[m].past
      && 0 <= v[r].link.base <= |ss[m].past| && ss[m].past[v[r].link.base..] == IdSeq(Kept(ss[m].log, from))
  {
    OrderAt(ss, m);
    var k := KeptFrom(ss[m].log, from);
    hide InOrder, Indexed, Kept, Known, IdsOf;
    SuffixOfPast(ss[m], k);
  }

  // ----- What passes through a stream -----------------------------------------------------------------------

  // The id that server n passes on by a step, if any.
  ghost function Passed(s: State, step: Step, n: nat): seq<Id>
    requires Enabled(s, step)
  {
    match step
    case Command(i, e) => if i == n then [IdOf(e)] else []
    case Write(i, _) => if i == n then [NextId(s.servers[i])] else []
    case Deliver(i, _) => if i == n then [s.servers[i].link.pending[0]] else []
    case _ => []
  }

  // A server executes what it passes on, which it did not know, and nothing else, unless it takes over other sets.
  lemma PassedIsExecuted(s: State, step: Step, n: nat)
    requires Inv(s) && Enabled(s, step) && n < |s.servers|
    ensures var a, b := s.servers[n], Next(s, step).servers[n];
      && |Next(s, step).servers| == |s.servers| && b.past == a.past + Passed(s, step, n)
      && Items(Passed(s, step, n)) !! Known(a)
      && (step != ReplyAll(n) && !(step.ToXsync? && step.n == n) ==> b.executed == a.executed + Items(Passed(s, step, n)))
  {
    hide *;
    NoneMore(s.servers[n].past, s.servers[n].executed);
    match step
    case Command(i, e) => PassedCommand(s, step, n);
    case Write(i, offset) => PassedWrite(s, step, n);
    case Deliver(i, offset) => PassedDelivery(s, step, n);
    case _ => NothingPassed(s, step, n);
  }

  lemma PassedCommand(s: State, step: Step, n: nat)
    requires Enabled(s, step) && step.Command? && n < |s.servers|
    ensures var a, b := s.servers[n], Next(s, step).servers[n];
      && |Next(s, step).servers| == |s.servers| && b.past == a.past + Passed(s, step, n)
      && Items(Passed(s, step, n)) !! Known(a) && b.executed == a.executed + Items(Passed(s, step, n))
  {
    hide Known, Beyond;
    NoneMore(s.servers[n].past, s.servers[n].executed);
    OneItem(IdOf(step.entry));
  }

  lemma PassedWrite(s: State, step: Step, n: nat)
    requires Inv(s) && Enabled(s, step) && step.Write? && n < |s.servers|
    ensures var a, b := s.servers[n], Next(s, step).servers[n];
      && |Next(s, step).servers| == |s.servers| && b.past == a.past + Passed(s, step, n)
      && Items(Passed(s, step, n)) !! Known(a) && b.executed == a.executed + Items(Passed(s, step, n))
  {
    NumberedAt(s, step.n);
    NextIsUnknown(s.servers[step.n]);
    hide Known, Beyond, Inv, NextId;
    NoneMore(s.servers[n].past, s.servers[n].executed);
    OneItem(NextId(s.servers[step.n]));
  }

  lemma PassedDelivery(s: State, step: Step, n: nat)
    requires Inv(s) && Enabled(s, step) && step.Deliver? && n < |s.servers|
    ensures var a, b := s.servers[n], Next(s, step).servers[n];
      && |Next(s, step).servers| == |s.servers| && b.past == a.past + Passed(s, step, n)
      && Items(Passed(s, step, n)) !! Known(a) && b.executed == a.executed + Items(Passed(s, step, n))
  {
    NeverIgnores(s.servers, step.r, step.offset);
    hide Known, Beyond, Inv, AllOk;
    NoneMore(s.servers[n].past, s.servers[n].executed);
    OneItem(s.servers[step.r].link.pending[0]);
  }

  lemma NothingPassed(s: State, step: Step, n: nat)
    requires Enabled(s, step) && !step.Command? && !step.Write? && !step.Deliver? && n < |s.servers|
    ensures var a, b := s.servers[n], Next(s, step).servers[n];
      && Passed(s, step, n) == [] && |Next(s, step).servers| == |s.servers| && b.past == a.past
      && (step != ReplyAll(n) && !(step.ToXsync? && step.n == n) ==> b.executed == a.executed)
  {
    hide Known, IdsOf, IdSeq, Gap, Kept, Continue, Updated, NextId, LossOf, AnswerOf, ReplicaLost;
  }

  lemma NumberedAt(s: State, n: nat)
    requires Inv(s) && n < |s.servers|
    ensures Numbered(s.servers[n])
  {
  }

  lemma NoneMore(p: seq<Id>, s: set<Id>)
    ensures p + [] == p && Items([]) == {} && s + {} == s
  {
  }

  lemma OneItem(x: Id)
    ensures Items([x]) == {x}
  {
  }

  // ----- Draining a link ------------------------------------------------------------------------------------

  // A replica that takes all that is under way puts just that, in order, at the end of its stream and of its index.
  lemma {:induction false} DrainIsInOrder(ss: seq<Server>, r: nat, offset: int)
    requires r < |ss| && ss[r].link.Streaming? && ss[r].link.m != r && Beyond(ss[r].log, offset)
    ensures var t, l := Drain(ss, r, offset), ss[r].link;
      && |t| == |ss| && t[r].link.Streaming? && t[r].link.pending == [] && t[r].link.taken == l.taken + l.pending
      && t[r].past == ss[r].past + l.pending && IdSeq(t[r].log) == IdSeq(ss[r].log) + l.pending
    decreases |ss[r].link.pending|
  {
    var l := ss[r].link;
    if l.pending == [] {
      assert l.taken + [] == l.taken && ss[r].past + [] == ss[r].past && IdSeq(ss[r].log) + [] == IdSeq(ss[r].log);
    } else {
      var u := DoDeliver(ss, r, offset);
      TakenOne(ss, r, offset);
      DrainIsInOrder(u, r, offset + 1);
      Shifted(l.taken, l.pending);
      Shifted(ss[r].past, l.pending);
      Shifted(IdSeq(ss[r].log), l.pending);
    }
  }

  lemma TakenOne(ss: seq<Server>, r: nat, offset: int)
    requires CanDeliver(ss, r, offset) && ss[r].link.m != r
    ensures var u, x := DoDeliver(ss, r, offset), ss[r].link.pending[0];
      && |u| == |ss| && u[r].link == Taken(ss[r].link) && Beyond(u[r].log, offset + 1)
      && u[r].past == ss[r].past + [x] && IdSeq(u[r].log) == IdSeq(ss[r].log) + [x]
  {
    hide Ignores;
    assert DoDeliver(ss, r, offset)[r].link == Taken(ss[r].link);
  }

  lemma Shifted(p: seq<Id>, q: seq<Id>)
    requires q != []
    ensures (p + [q[0]]) + q[1..] == p + q
  {
  }

  // ----- Who is disconnected --------------------------------------------------------------------------------

  // Server n streams to no replica but r.
  ghost predicate FeedsOnly(ss: seq<Server>, n: nat, r: int) {
    forall i :: 0 <= i < |ss| && i != r ==> !Fed(ss[i].link, n)
  }

  lemma CutFeedsOnly(ss: seq<Server>, n: nat, r: int)
    ensures FeedsOnly(CutAll(ss, n, r), n, r)
  {
  }

  // A master that counts ids as lost keeps no link but the one it answers, neither to other replicas nor to its own
  // master; and where it lacks nothing all links stay.
  lemma AcceptCuts(ss: seq<Server>, r: nat)
    requires CanAccept(ss, r) && ss[r].link.m != r
    ensures var v, m := DoAccept(ss, r), ss[r].link.m;
      if ss[r].link.request <= Known(ss[m]) then forall i :: 0 <= i < |ss| && i != r ==> v[i].link == ss[i].link
      else |v| == |ss| && FeedsOnly(v, m, r) && v[m].link.Idle?
  {
    var l, m := ss[r].link, ss[r].link.m;
    LossIs(ss[m], l.request);
    var loss := LossOf(ss[m], l.request);
    var t := Losing(ss[m], loss).(link := Idle);
    hide Known, Gap, Suffix, IdsOf, LossOf, AnswerOf, Updated, FeedsOnly;
    CutFeedsOnly(ss[m := t], m, r);
    StillFeedsOnly(CutAll(ss[m := t], m, r), m, r, AnswerOf(ss[m], l));
  }

  lemma StillFeedsOnly(ss: seq<Server>, n: nat, r: nat, k: Link)
    requires FeedsOnly(ss, n, r) && r < |ss|
    ensures FeedsOnly(ss[r := ss[r].(link := k)], n, r)
  {
  }

  lemma LossIs(s: Server, request: set<Id>)
    ensures LossOf(s, request) == request - Known(s)
  {
    var k := Start(s.log, request);
    var q := Suffix(s, request);
    ContinueIsNew(s.log, request, if k < |s.log| then s.log[k].offset else -1, IdsOf(q));
    hide IdsOf, Suffix;
    assert forall x :: x in request ==> x !in IdsOf(q);
  }

  // A replica that learns of lost ids, or of another uuid, id or offset of its master, disconnects its own replicas.
  lemma ReplyCuts(ss: seq<Server>, r: nat, update: bool)
    requires CanReply(ss, r)
    ensures var v := DoReply(ss, r, update);
      && v[r].lost == ss[r].lost + (ss[r].link.cont - Known(ss[r])) && v[r].executed == ss[r].executed
      && (update || !(ss[r].link.cont <= Known(ss[r])) ==> FeedsOnly(v, r, r))
      && (!update && ss[r].link.cont <= Known(ss[r]) ==> forall i :: 0 <= i < |ss| && i != r ==> v[i] == ss[i])
  {
    var s, l := ss[r], ss[r].link;
    var slost := ReplicaLost(l.cont, Known(s));
    var t := (if slost != {} then Losing(s, slost) else s).(
      link := Streaming(l.m, l.attached, l.pending, l.mgap, l.sgap, l.maxgap, l.base, []));
    assert slost == {} ==> s.lost + slost == s.lost;
    assert slost == {} <==> l.cont <= Known(s);
    hide Known, Updated, FeedsOnly;
    CutFeedsOnly(ss[r := t], r, r);
  }

  // A change of mode disconnects everybody, and into xsync mode the server begins with the given sets and an empty
  // index.
  lemma ModeCuts(ss: seq<Server>, n: nat, uuid: Uuid, executed: set<Id>, lost: set<Id>)
    requires n < |ss|
    ensures FeedsOnly(DoToPsync(ss, n), n, -1) && DoToPsync(ss, n)[n].link.Idle? && DoToPsync(ss, n)[n].mode == Psync
    ensures FeedsOnly(DoToXsync(ss, n, uuid, executed, lost), n, -1)
    ensures var t := DoToXsync(ss, n, uuid, executed, lost)[n];
      t.executed == executed && t.lost == lost && t.log == [] && t.link.Idle? && t.mode == Xsync && t.uuid == uuid
  {
    hide Updated, FeedsOnly;
    CutFeedsOnly(ss[n := ss[n].(mode := Psync, link := Idle)], n, -1);
    CutFeedsOnly(ss[n := Reset(ss[n].(uuid := uuid), executed, lost).(mode := Xsync, log := [], link := Idle)], n, -1);
  }
}
