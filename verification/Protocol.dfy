/**
 * The replication protocol as a transition system: any number of servers, each of which may replicate
 * from one other and serve any number of replicas. Messages take time: a request, a reply and the stream
 * behind it are separate steps, and a connection may be cut at any moment on either side.
 */
module Protocol {
  import opened Handshake
  import Intervals
  import opened NextGnos
  import opened SeqLogs
  import opened SeqQueries
  import opened Tables

  datatype Mode = Psync | Xsync

  // A replica's link to its master, with what is under way on it. "base" says how much had passed through the master's
  // stream before the continue point, and "taken" what the replica has taken from the link, in order.
  datatype Link =
    | Idle
    // XSYNC request sent, with the ids known and lost at that time.
    | Asked(m: nat, request: set<Id>, requestLost: set<Id>, maxgap: nat)
    // The master has accepted: XCONTINUE with "cont" is under way, and the stream behind it.
    | Answered(m: nat, attached: bool, request: set<Id>, cont: set<Id>, pending: seq<Id>,
               mgap: set<Id>, sgap: set<Id>, maxgap: nat, base: int)
    // As Answered, but the replica is to take over the master's sets.
    | Adopting(m: nat, attached: bool, cont: set<Id>, contLost: set<Id>, pending: seq<Id>, base: int)
    // The reply is processed; "pending" has been sent and not applied.
    | Streaming(m: nat, attached: bool, pending: seq<Id>, mgap: set<Id>, sgap: set<Id>, maxgap: nat,
                base: int, taken: seq<Id>)

  // A server numbers its own transactions under its uuid; curnext is the next gno if it was chosen, or 0. "past" are
  // the ids of all commands that have passed through its stream, in order, of which the index keeps the latest.
  datatype Server = Server(mode: Mode, uuid: Uuid, executed: set<Id>, lost: set<Id>, curnext: int,
                           log: seq<LogEntry>, past: seq<Id>, link: Link)

  datatype State = State(servers: seq<Server>, ignored: nat)

  function Known(s: Server): set<Id> {
    s.executed + s.lost
  }

  ghost function Own(s: Server): set<int> {
    GnosFor(s.executed, s.uuid)
  }

  ghost function OwnLost(s: Server): set<int> {
    GnosFor(s.lost, s.uuid)
  }

  // The id of the server's next transaction.
  ghost function NextId(s: Server): Id {
    Id(s.uuid, NextGno(s.curnext, Own(s)))
  }

  // The server with more ids lost; the next gno is chosen anew if that is needed.
  ghost function Losing(s: Server, more: set<Id>): Server {
    var t := s.(lost := s.lost + more);
    t.(curnext := Updated(s.curnext, Own(t), OwnLost(t)))
  }

  // The server with other sets: first the executed one is replaced and then the lost one.
  ghost function Reset(s: Server, executed: set<Id>, lost: set<Id>): Server {
    var t := s.(executed := executed);
    var u := t.(curnext := Updated(0, Own(t), OwnLost(t)), lost := lost);
    u.(curnext := Updated(u.curnext, Own(u), OwnLost(u)))
  }

  function IdOf(e: LogEntry): Id {
    Id(e.uuid, e.gno)
  }

  function IdSeq(log: seq<LogEntry>): (r: seq<Id>)
    ensures |r| == |log| && forall i :: 0 <= i < |log| ==> r[i] == IdOf(log[i])
  {
    seq(|log|, i requires 0 <= i < |log| => IdOf(log[i]))
  }

  function Items(q: seq<Id>): set<Id> {
    set x | x in q
  }

  // The link is open at the master's end: what server m streams goes there.
  predicate Fed(l: Link, m: nat) {
    (l.Answered? || l.Adopting? || l.Streaming?) && l.attached && l.m == m
  }

  // What is streamed queues up behind what is under way.
  function Queued(l: Link, x: Id): Link
    requires l.Answered? || l.Adopting? || l.Streaming?
  {
    l.(pending := l.pending + [x])
  }

  function FeedLink(l: Link, m: nat, x: Id): Link {
    if Fed(l, m) then Queued(l, x) else l
  }

  function CutLink(l: Link, m: nat): Link {
    if Fed(l, m) then l.(attached := false) else l
  }

  // Server m streams x to its replicas.
  function Feed(ss: seq<Server>, m: nat, x: Id): (r: seq<Server>)
    ensures |r| == |ss| && forall i :: 0 <= i < |ss| ==> r[i] == ss[i].(link := FeedLink(ss[i].link, m, x))
  {
    seq(|ss|, i requires 0 <= i < |ss| => ss[i].(link := FeedLink(ss[i].link, m, x)))
  }

  // Server m disconnects its replicas except one.
  function CutAll(ss: seq<Server>, m: nat, except: int): (r: seq<Server>)
    ensures |r| == |ss|
    ensures forall i :: 0 <= i < |ss| ==> r[i] == if i == except then ss[i] else ss[i].(link := CutLink(ss[i].link, m))
  {
    seq(|ss|, i requires 0 <= i < |ss| => if i == except then ss[i] else ss[i].(link := CutLink(ss[i].link, m)))
  }

  // ----- Steps ------------------------------------------------------------------------------------------

  datatype Step =
    | Command(n: nat, entry: LogEntry)
    | Write(n: nat, offset: int)
    | Deliver(r: nat, offset: int)
    | Trim(n: nat, until: int)
    | Ask(r: nat, m: nat, maxgap: nat)
    | Accept(r: nat)
    | AcceptPrev(r: nat, k: nat)
    | Reply(r: nat, update: bool)
    | AcceptAll(r: nat, m: nat, from: int)
    | ReplyAll(r: nat)
    | Disconnect(r: nat)
    | CloseByMaster(r: nat)
    | LoseTail(r: nat, k: nat)
    | ToPsync(n: nat)
    | ToXsync(n: nat, uuid: Uuid, executed: set<Id>, lost: set<Id>)

  // The log of a server goes on beyond all its offsets.
  predicate Beyond(log: seq<LogEntry>, offset: int) {
    log != [] ==> log[|log| - 1].offset < offset
  }

  // A client sends a GTID command, under any uuid, and its id is not known yet. A gno below 1 stops the server.
  predicate CanCommand(ss: seq<Server>, n: nat, e: LogEntry) {
    n < |ss| && e.gno >= Intervals.GNO_INITIAL && ss[n].link.Idle? && IdOf(e) !in Known(ss[n]) && Beyond(ss[n].log, e.offset)
  }

  function DoCommand(ss: seq<Server>, n: nat, e: LogEntry): seq<Server>
    requires CanCommand(ss, n, e)
  {
    var s := ss[n];
    Feed(ss[n := s.(executed := s.executed + {IdOf(e)}, log := s.log + [e], past := s.past + [IdOf(e)])], n, IdOf(e))
  }

  // A server executes a transaction of its own. Nothing checks whether its next id is known already.
  predicate CanWrite(ss: seq<Server>, n: nat, offset: int) {
    n < |ss| && ss[n].link.Idle? && ss[n].mode.Xsync? && Beyond(ss[n].log, offset)
  }

  ghost function DoWrite(ss: seq<Server>, n: nat, offset: int): seq<Server>
    requires CanWrite(ss, n, offset)
  {
    var s, x := ss[n], NextId(ss[n]);
    Feed(ss[n := s.(executed := s.executed + {x}, curnext := 0, log := s.log + [LogEntry(x.uuid, x.gno, offset)],
                    past := s.past + [x])], n, x)
  }

  // A replica takes the next command from its stream: it executes it or, if it has the id, ignores it.
  // Either way the command goes into its index and on to its own replicas.
  predicate CanDeliver(ss: seq<Server>, r: nat, offset: int) {
    r < |ss| && ss[r].link.Streaming? && ss[r].link.pending != [] && Beyond(ss[r].log, offset)
  }

  predicate Ignores(ss: seq<Server>, r: nat)
    requires r < |ss| && ss[r].link.Streaming? && ss[r].link.pending != []
  {
    ss[r].link.pending[0] in Known(ss[r])
  }

  // The link without its first command.
  function Taken(l: Link): Link
    requires l.Streaming? && l.pending != []
  {
    Streaming(l.m, l.attached, l.pending[1..], l.mgap, l.sgap, l.maxgap, l.base, l.taken + [l.pending[0]])
  }

  function DoDeliver(ss: seq<Server>, r: nat, offset: int): seq<Server>
    requires CanDeliver(ss, r, offset)
  {
    var s := ss[r];
    var x := s.link.pending[0];
    var executed := if Ignores(ss, r) then s.executed else s.executed + {x};
    var t := s.(executed := executed, log := s.log + [LogEntry(x.uuid, x.gno, offset)], past := s.past + [x],
                link := Taken(s.link));
    Feed(ss[r := t], r, x)
  }

  // A replica asks to continue.
  predicate CanAsk(ss: seq<Server>, r: nat, m: nat) {
    r < |ss| && m < |ss| && r != m && ss[r].link.Idle? && ss[r].mode.Xsync?
  }

  function DoAsk(ss: seq<Server>, r: nat, m: nat, maxgap: nat): seq<Server>
    requires CanAsk(ss, r, m)
  {
    ss[r := ss[r].(link := Asked(m, Known(ss[r]), ss[r].lost, maxgap))]
  }

  // What the master will stream: its log from the continue point of the request.
  ghost function Suffix(s: Server, request: set<Id>): (q: seq<LogEntry>) {
    s.log[Start(s.log, request)..]
  }

  // The master accepts if the gap is small enough.
  ghost predicate SmallGap(ss: seq<Server>, r: nat) {
    r < |ss| && ss[r].link.Asked? &&
    var l := ss[r].link;
    l.m < |ss| &&
    Gap(ss[l.m].executed, IdsOf(Suffix(ss[l.m], l.request)), l.request, l.requestLost) <= l.maxgap
  }

  ghost predicate CanAccept(ss: seq<Server>, r: nat) {
    SmallGap(ss, r) && ss[ss[r].link.m].mode.Xsync?
  }

  // It counts as lost what only the replica has ...
  ghost function LossOf(s: Server, request: set<Id>): set<Id> {
    MasterLost(request, Continue(Known(s), IdsOf(Suffix(s, request))))
  }

  ghost function AnswerOf(s: Server, l: Link): Link
    requires l.Asked?
  {
    var q := Suffix(s, l.request);
    Answered(l.m, true, l.request, Continue(Known(s), IdsOf(q)), IdSeq(q),
      MasterGap(s.executed, IdsOf(q), l.request, l.requestLost),
      ReplicaGap(s.executed, IdsOf(q), l.request, l.requestLost), l.maxgap, |s.past| - |q|)
  }

  // ... and if that is anything, it disconnects its other replicas and its own master, for they must hear of it.
  ghost function DoAccept(ss: seq<Server>, r: nat): seq<Server>
    requires SmallGap(ss, r)
  {
    var l, m := ss[r].link, ss[r].link.m;
    var loss := LossOf(ss[m], l.request);
    Answering(ss, r, m, Losing(ss[m], loss).(link := Idle), AnswerOf(ss[m], l), loss != {})
  }

  // m answers r; a loss changes m to t and cuts all other replicas.
  ghost function Answering(ss: seq<Server>, r: nat, m: nat, t: Server, answer: Link, lossy: bool): seq<Server>
    requires r < |ss| && m < |ss|
  {
    var cut := if lossy then CutAll(ss[m := t], m, r) else ss;
    cut[r := cut[r].(link := answer)]
  }

  // A master that has gone over to psync mode answers as well, but its stream ends at the switch, here after k
  // commands, and it closes the connection.
  ghost predicate CanAcceptPrev(ss: seq<Server>, r: nat, k: nat) {
    SmallGap(ss, r) && ss[ss[r].link.m].mode.Psync? && k <= |Suffix(ss[ss[r].link.m], ss[r].link.request)|
  }

  function Shortened(l: Link, k: nat): Link
    requires l.Answered? && k <= |l.pending|
  {
    Answered(l.m, false, l.request, l.cont, l.pending[..k], l.mgap, l.sgap, l.maxgap, l.base)
  }

  ghost function DoAcceptPrev(ss: seq<Server>, r: nat, k: nat): seq<Server>
    requires CanAcceptPrev(ss, r, k)
  {
    var v := DoAccept(ss, r);
    var l := v[r].link;
    v[r := v[r].(link := Shortened(l, k))]
  }

  // The replica processes XCONTINUE. "update" says that the reply also changes the master's uuid, the
  // replication id or the offset, of which its own replicas must hear.
  predicate CanReply(ss: seq<Server>, r: nat) {
    r < |ss| && ss[r].link.Answered?
  }

  ghost function DoReply(ss: seq<Server>, r: nat, update: bool): seq<Server>
    requires CanReply(ss, r)
  {
    var s, l := ss[r], ss[r].link;
    var slost := ReplicaLost(l.cont, Known(s));
    var u := if slost != {} then Losing(s, slost) else s;
    var t := u.(link := Streaming(l.m, l.attached, l.pending, l.mgap, l.sgap, l.maxgap, l.base, []));
    if update || slost != {} then CutAll(ss[r := t], r, r) else ss[r := t]
  }

  // The master makes a replica take over its sets: a replica in psync mode that has everything before
  // offset "from", where xsync mode began, or one in full resynchronisation, with "from" at the end.
  predicate CanAcceptAll(ss: seq<Server>, r: nat, m: nat) {
    r < |ss| && m < |ss| && r != m && ss[r].link.Idle? && ss[m].mode.Xsync?
  }

  ghost function DoAcceptAll(ss: seq<Server>, r: nat, m: nat, from: int): seq<Server>
    requires CanAcceptAll(ss, r, m)
  {
    var q := Kept(ss[m].log, from);
    ss[r := ss[r].(link := Adopting(m, true, Continue(Known(ss[m]), IdsOf(q)), ss[m].lost, IdSeq(q),
                                   |ss[m].past| - |q|))]
  }

  predicate CanReplyAll(ss: seq<Server>, r: nat) {
    r < |ss| && ss[r].link.Adopting?
  }

  ghost function DoReplyAll(ss: seq<Server>, r: nat): seq<Server>
    requires CanReplyAll(ss, r)
  {
    var l := ss[r].link;
    var u := Reset(ss[r], l.cont - l.contLost, l.contLost);
    var t := u.(mode := Xsync, log := [], link := Streaming(l.m, l.attached, l.pending, {}, {}, 0, l.base, []));
    CutAll(ss[r := t], r, r)
  }

  predicate CanClose(ss: seq<Server>, r: nat) {
    r < |ss| && (ss[r].link.Answered? || ss[r].link.Adopting? || ss[r].link.Streaming?)
  }

  // What was sent on a connection that the master has closed may get lost from the end.
  predicate CanLoseTail(ss: seq<Server>, r: nat, k: nat) {
    CanClose(ss, r) && !ss[r].link.attached && k <= |ss[r].link.pending|
  }

  // A change of mode closes all links. Into xsync mode the server starts with given sets and a new index, and it
  // may take another uuid.
  function DoToPsync(ss: seq<Server>, n: nat): seq<Server>
    requires n < |ss|
  {
    CutAll(ss[n := ss[n].(mode := Psync, link := Idle)], n, -1)
  }

  ghost function DoToXsync(ss: seq<Server>, n: nat, uuid: Uuid, executed: set<Id>, lost: set<Id>): seq<Server>
    requires n < |ss|
  {
    var t := Reset(ss[n].(uuid := uuid), executed, lost);
    CutAll(ss[n := t.(mode := Xsync, log := [], link := Idle)], n, -1)
  }

  ghost predicate Enabled(s: State, step: Step) {
    var ss := s.servers;
    match step
    case Command(n, e) => CanCommand(ss, n, e)
    case Write(n, offset) => CanWrite(ss, n, offset)
    case Deliver(r, offset) => CanDeliver(ss, r, offset)
    case Trim(n, _) => n < |ss|
    case Ask(r, m, _) => CanAsk(ss, r, m)
    case Accept(r) => CanAccept(ss, r)
    case AcceptPrev(r, k) => CanAcceptPrev(ss, r, k)
    case Reply(r, _) => CanReply(ss, r)
    case AcceptAll(r, m, _) => CanAcceptAll(ss, r, m)
    case ReplyAll(r) => CanReplyAll(ss, r)
    case Disconnect(r) => r < |ss|
    case CloseByMaster(r) => CanClose(ss, r)
    case LoseTail(r, k) => CanLoseTail(ss, r, k)
    case ToPsync(n) => n < |ss|
    case ToXsync(n, _, executed, lost) => n < |ss| && executed !! lost
  }

  ghost function Next(s: State, step: Step): State
    requires Enabled(s, step)
  {
    var ss := s.servers;
    match step
    case Command(n, e) => s.(servers := DoCommand(ss, n, e))
    case Write(n, offset) => s.(servers := DoWrite(ss, n, offset))
    case Deliver(r, offset) =>
      State(DoDeliver(ss, r, offset), if Ignores(ss, r) then s.ignored + 1 else s.ignored)
    case Trim(n, until) => s.(servers := ss[n := ss[n].(log := Kept(ss[n].log, until))])
    case Ask(r, m, maxgap) => s.(servers := DoAsk(ss, r, m, maxgap))
    case Accept(r) => s.(servers := DoAccept(ss, r))
    case AcceptPrev(r, k) => s.(servers := DoAcceptPrev(ss, r, k))
    case Reply(r, update) => s.(servers := DoReply(ss, r, update))
    case AcceptAll(r, m, from) => s.(servers := DoAcceptAll(ss, r, m, from))
    case ReplyAll(r) => s.(servers := DoReplyAll(ss, r))
    case Disconnect(r) => s.(servers := ss[r := ss[r].(link := Idle)])
    case CloseByMaster(r) => s.(servers := ss[r := ss[r].(link := ss[r].link.(attached := false))])
    case LoseTail(r, k) => s.(servers := ss[r := ss[r].(link := ss[r].link.(pending := ss[r].link.pending[..k]))])
    case ToPsync(n) => s.(servers := DoToPsync(ss, n))
    case ToXsync(n, uuid, executed, lost) => s.(servers := DoToXsync(ss, n, uuid, executed, lost))
  }
}
