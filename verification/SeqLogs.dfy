/** The index of logged GTIDs as a plain log, and its compressed form as a sequence of blocks. */
module SeqLogs {
  import opened Intervals
  import opened IntervalEdits
  import opened Tables
  import Seqs

  const SEGOFF_MAX := 0xffff
  const SEGMENT_SIZE := SEGOFF_MAX + 1

  // One transaction and where its command starts in the replication stream.
  datatype LogEntry = LogEntry(uuid: Uuid, gno: int, offset: int)

  ghost predicate Before(log: seq<LogEntry>, i: nat, j: nat)
    requires i < |log| && j < |log|
  {
    log[i].offset < log[j].offset
  }

  ghost predicate Ascending(log: seq<LogEntry>) {
    forall i, j :: 0 <= i < j < |log| ==> Before(log, i, j)
  }

  ghost function IdsOf(log: seq<LogEntry>): set<Id> {
    set i | 0 <= i < |log| :: Id(log[i].uuid, log[i].gno)
  }

  // ----- Blocks ------------------------------------------------------------------------------------

  // Consecutive gnos of one uuid: number baseGno + i was logged at baseOffset + deltas[i];
  // the first tgno of them have been trimmed.
  datatype Block = Block(uuid: Uuid, baseGno: int, baseOffset: int, deltas: seq<int>, tgno: nat)

  predicate Increasing(d: seq<int>, i: nat, j: nat)
    requires i < |d| && j < |d|
  {
    d[i] < d[j]
  }

  ghost predicate Good(b: Block) {
    && b.tgno < |b.deltas|
    && (forall i :: 0 <= i < |b.deltas| ==> 0 <= b.deltas[i] <= SEGOFF_MAX)
    && (forall i, j :: 0 <= i < j < |b.deltas| ==> Increasing(b.deltas, i, j))
    && b.baseGno >= GNO_INITIAL && b.baseGno + |b.deltas| <= GNO_MAX
  }

  function TailOffset(b: Block): int
    requires b.deltas != []
  {
    b.baseOffset + b.deltas[|b.deltas| - 1]
  }

  ghost predicate Follows(bs: seq<Block>, i: nat, j: nat)
    requires i < |bs| && j < |bs|
  {
    bs[i].deltas != [] && TailOffset(bs[i]) < bs[j].baseOffset
  }

  ghost predicate GoodBlocks(bs: seq<Block>) {
    && (forall i :: 0 <= i < |bs| ==> Good(bs[i]))
    && (forall i, j :: 0 <= i < j < |bs| ==> Follows(bs, i, j))
  }

  function EntryOf(b: Block, i: nat): LogEntry
    requires i < |b.deltas|
  {
    LogEntry(b.uuid, b.baseGno + i, b.baseOffset + b.deltas[i])
  }

  ghost function BlockLog(b: Block): (log: seq<LogEntry>)
    requires b.tgno <= |b.deltas|
    ensures |log| == |b.deltas| - b.tgno
  {
    seq(|b.deltas| - b.tgno, i requires 0 <= i < |b.deltas| - b.tgno => EntryOf(b, b.tgno + i))
  }

  // The log that the blocks stand for.
  ghost function Log(bs: seq<Block>): seq<LogEntry>
    requires GoodBlocks(bs)
  {
    if bs == [] then [] else
      GoodInit(bs);
      Log(bs[..|bs| - 1]) + BlockLog(bs[|bs| - 1])
  }

  lemma GoodInit(bs: seq<Block>)
    requires GoodBlocks(bs) && bs != []
    ensures GoodBlocks(bs[..|bs| - 1]) && Good(bs[|bs| - 1])
  {
    var p := bs[..|bs| - 1];
    forall i, j | 0 <= i < j < |p| ensures Follows(p, i, j) {
      assert Follows(bs, i, j);
    }
  }

  lemma GoodRest(bs: seq<Block>)
    requires GoodBlocks(bs) && bs != []
    ensures GoodBlocks(bs[1..]) && Good(bs[0])
  {
    var p := bs[1..];
    forall i, j | 0 <= i < j < |p| ensures Follows(p, i, j) {
      assert Follows(bs, i + 1, j + 1);
    }
  }

  lemma GoodAppend(bs: seq<Block>, b: Block)
    requires GoodBlocks(bs) && Good(b)
    requires bs != [] ==> bs[|bs| - 1].deltas != [] && TailOffset(bs[|bs| - 1]) < b.baseOffset
    ensures GoodBlocks(bs + [b]) && Log(bs + [b]) == Log(bs) + BlockLog(b)
  {
    AllFollow(bs, b);
    hide Follows, Good, BlockLog;
    Seqs.Pieces(bs, [b]);
    assert (bs + [b])[|bs|] == b;
  }

  lemma AllFollow(bs: seq<Block>, b: Block)
    requires GoodBlocks(bs) && Good(b)
    requires bs != [] ==> bs[|bs| - 1].deltas != [] && TailOffset(bs[|bs| - 1]) < b.baseOffset
    ensures GoodBlocks(bs + [b])
  {
    var t, n := bs + [b], |bs|;
    if n > 0 { BaseUpToTail(bs[n - 1]); }
    hide Good;
    forall i, j | 0 <= i < j < n + 1 ensures Follows(t, i, j) {
      assert j < n ==> Follows(bs, i, j);
      assert i < n - 1 ==> Follows(bs, i, n - 1);
    }
  }

  lemma BaseUpToTail(b: Block)
    requires Good(b)
    ensures b.baseOffset <= TailOffset(b)
  {
  }

  // The first block comes first in the log.
  lemma {:induction false} FirstBlock(bs: seq<Block>)
    requires GoodBlocks(bs) && bs != []
    ensures GoodBlocks(bs[1..]) && Log(bs) == BlockLog(bs[0]) + Log(bs[1..])
  {
    GoodRest(bs);
    if |bs| == 1 {
      assert bs[..0] == [] && bs[1..] == [];
    } else {
      var p := bs[..|bs| - 1];
      GoodInit(bs);
      FirstBlock(p);
      assert p[1..] == bs[1..][..|bs| - 2];
      assert Log(bs[1..]) == Log(p[1..]) + BlockLog(bs[|bs| - 1]);
      Seqs.Assoc(BlockLog(bs[0]), Log(p[1..]), BlockLog(bs[|bs| - 1]));
    }
  }

  lemma AscendingConcat(a: seq<LogEntry>, q: seq<LogEntry>)
    requires Ascending(a) && Ascending(q)
    requires a != [] && q != [] ==> a[|a| - 1].offset < q[0].offset
    ensures Ascending(a + q)
  {
    var log := a + q;
    forall i, j | 0 <= i < j < |log| ensures Before(log, i, j) {
      if j < |a| {
        assert Before(a, i, j);
      } else if i >= |a| {
        assert Before(q, i - |a|, j - |a|);
      } else {
        assert i < |a| - 1 ==> Before(a, i, |a| - 1);
        assert j > |a| ==> Before(q, 0, j - |a|);
      }
    }
  }

  lemma BlockAscends(b: Block)
    requires Good(b)
    ensures var q := BlockLog(b);
            Ascending(q) && q != [] && b.baseOffset <= q[0].offset && q[|q| - 1].offset == TailOffset(b)
    ensures forall i :: 0 <= i < |BlockLog(b)| ==> GNO_INITIAL <= BlockLog(b)[i].gno < GNO_MAX
  {
    var q := BlockLog(b);
    forall i, j | 0 <= i < j < |q| ensures Before(q, i, j) {
      assert Increasing(b.deltas, b.tgno + i, b.tgno + j);
      assert q[i] == EntryOf(b, b.tgno + i) && q[j] == EntryOf(b, b.tgno + j);
    }
    assert q[0] == EntryOf(b, b.tgno) && q[|q| - 1] == EntryOf(b, |b.deltas| - 1);
    forall i | 0 <= i < |q| ensures GNO_INITIAL <= q[i].gno < GNO_MAX {
      assert q[i] == EntryOf(b, b.tgno + i);
    }
  }

  // Offsets ascend up to the tail of the last block.
  lemma {:induction false} LogAscends(bs: seq<Block>)
    requires GoodBlocks(bs)
    ensures Ascending(Log(bs)) && (Log(bs) == [] <==> bs == [])
    ensures bs != [] ==> Log(bs)[|Log(bs)| - 1].offset == TailOffset(bs[|bs| - 1])
    ensures forall i :: 0 <= i < |Log(bs)| ==> GNO_INITIAL <= Log(bs)[i].gno < GNO_MAX
  {
    if bs != [] {
      var n := |bs| - 1;
      var p, b := bs[..n], bs[n];
      GoodInit(bs);
      assert n > 0 ==> Follows(bs, n - 1, n);
      hide Good, GoodBlocks, Follows;
      LogAscends(p);
      BlockAscends(b);
      AscendingConcat(Log(p), BlockLog(b));
    }
  }

  // ----- Appending ---------------------------------------------------------------------------------

  // The entry goes on in block b: same uuid, next gno, and its delta fits.
  predicate Continues(b: Block, uuid: Uuid, gno: int, offset: int) {
    b.uuid == uuid && b.baseGno + |b.deltas| == gno && offset < b.baseOffset + SEGMENT_SIZE
  }

  function Extended(b: Block, offset: int): Block {
    b.(deltas := b.deltas + [offset - b.baseOffset])
  }

  lemma ExtendedBlock(b: Block, e: LogEntry)
    requires Good(b) && Continues(b, e.uuid, e.gno, e.offset) && TailOffset(b) < e.offset && e.gno < GNO_MAX
    ensures Good(Extended(b, e.offset)) && BlockLog(Extended(b, e.offset)) == BlockLog(b) + [e]
    ensures TailOffset(Extended(b, e.offset)) == e.offset
  {
    var c := Extended(b, e.offset);
    var n := |b.deltas|;
    forall i, j | 0 <= i < j < n + 1 ensures Increasing(c.deltas, i, j) {
      assert j < n ==> Increasing(b.deltas, i, j);
      assert i < n - 1 ==> Increasing(b.deltas, i, n - 1);
    }
    assert forall i :: 0 <= i < n ==> EntryOf(c, i) == EntryOf(b, i);
    assert EntryOf(c, n) == e;
  }

  lemma NewBlock(e: LogEntry)
    requires GNO_INITIAL <= e.gno < GNO_MAX
    ensures var b := Block(e.uuid, e.gno, e.offset, [0], 0); Good(b) && BlockLog(b) == [e] && TailOffset(b) == e.offset
  {
    assert EntryOf(Block(e.uuid, e.gno, e.offset, [0], 0), 0) == e;
  }

  lemma ExtendedLog(bs: seq<Block>, e: LogEntry)
    requires GoodBlocks(bs) && bs != [] && e.gno < GNO_MAX && TailOffset(bs[|bs| - 1]) < e.offset
    requires Continues(bs[|bs| - 1], e.uuid, e.gno, e.offset)
    ensures var t := bs[|bs| - 1 := Extended(bs[|bs| - 1], e.offset)]; GoodBlocks(t) && Log(t) == Log(bs) + [e]
  {
    hide *;
    var n := |bs| - 1;
    var b, c := bs[n], Extended(bs[n], e.offset);
    LastBlock(bs);
    ExtendedBlock(b, e);
    BeforeLast(bs, e.offset);
    GoodAppend(bs[..n], c);
    assert bs[n := c] == bs[..n] + [c];
    Seqs.Assoc(Log(bs[..n]), BlockLog(b), [e]);
  }

  lemma LastBlock(bs: seq<Block>)
    requires GoodBlocks(bs) && bs != []
    ensures GoodBlocks(bs[..|bs| - 1]) && Good(bs[|bs| - 1])
    ensures Log(bs) == Log(bs[..|bs| - 1]) + BlockLog(bs[|bs| - 1])
  {
    GoodInit(bs);
  }

  lemma BeforeLast(bs: seq<Block>, offset: int)
    requires GoodBlocks(bs) && bs != []
    ensures var n := |bs| - 1;
            n > 0 ==> bs[..n][n - 1].deltas != [] && TailOffset(bs[..n][n - 1]) < Extended(bs[n], offset).baseOffset
  {
    var n := |bs| - 1;
    assert n > 0 ==> Follows(bs, n - 1, n) && bs[..n][n - 1] == bs[n - 1];
  }

  // The offset can go into the last block ...
  predicate LastFits(bs: seq<Block>, offset: int) {
    bs != [] && 0 <= offset - bs[|bs| - 1].baseOffset <= SEGOFF_MAX
  }

  // ... and has gone there.
  predicate LastExtended(bs: seq<Block>, t: seq<Block>, offset: int) {
    bs != [] && t == bs[|bs| - 1 := Extended(bs[|bs| - 1], offset)]
  }

  predicate MayGoOn(bs: seq<Block>, e: LogEntry) {
    && bs != [] && bs[|bs| - 1].deltas != [] && TailOffset(bs[|bs| - 1]) < e.offset
    && Continues(bs[|bs| - 1], e.uuid, e.gno, e.offset) && e.gno < GNO_MAX
  }

  lemma GoneOn(bs: seq<Block>, e: LogEntry)
    requires GoodBlocks(bs) && MayGoOn(bs, e)
    ensures LastFits(bs, e.offset)
    ensures forall t :: LastExtended(bs, t, e.offset) ==> GoodBlocks(t) && Log(t) == Log(bs) + [e]
  {
    BaseUpToTail(bs[|bs| - 1]);
    ExtendedLog(bs, e);
  }

  predicate MayStart(bs: seq<Block>, e: LogEntry) {
    && (bs != [] ==> bs[|bs| - 1].deltas != [] && TailOffset(bs[|bs| - 1]) < e.offset)
    && GNO_INITIAL <= e.gno < GNO_MAX
  }

  function Empty(e: LogEntry): Block {
    Block(e.uuid, e.gno, e.offset, [], 0)
  }

  lemma Started(bs: seq<Block>, e: LogEntry)
    requires GoodBlocks(bs) && MayStart(bs, e)
    ensures LastFits(bs + [Empty(e)], e.offset)
    ensures forall t :: LastExtended(bs + [Empty(e)], t, e.offset) ==> GoodBlocks(t) && Log(t) == Log(bs) + [e]
  {
    var b := Block(e.uuid, e.gno, e.offset, [0], 0);
    OneEntry(e);
    NewBlock(e);
    hide Good, GoodBlocks, Log, BlockLog, Extended;
    GoodAppend(bs, b);
    Seqs.ReplaceLast(bs, Empty(e), b);
  }

  lemma OneEntry(e: LogEntry)
    ensures Extended(Empty(e), e.offset) == Block(e.uuid, e.gno, e.offset, [0], 0)
  {
    assert [] + [e.offset - e.offset] == [0];
  }

  // ----- Trimming ----------------------------------------------------------------------------------

  // The entries from offset "until" on.
  ghost function Kept(log: seq<LogEntry>, until: int): seq<LogEntry> {
    if log == [] then []
    else Kept(log[..|log| - 1], until) + (if log[|log| - 1].offset >= until then [log[|log| - 1]] else [])
  }

  lemma {:induction false} KeptConcat(a: seq<LogEntry>, b: seq<LogEntry>, until: int)
    ensures Kept(a + b, until) == Kept(a, until) + Kept(b, until)
  {
    if b == [] {
      assert a + b == a;
    } else {
      assert (a + b)[..|a + b| - 1] == a + b[..|b| - 1];
      KeptConcat(a, b[..|b| - 1], until);
    }
  }

  lemma {:induction false} KeptNone(log: seq<LogEntry>, until: int)
    requires forall i :: 0 <= i < |log| ==> log[i].offset < until
    ensures Kept(log, until) == []
  {
    if log != [] { KeptNone(log[..|log| - 1], until); }
  }

  lemma {:induction false} KeptAll(log: seq<LogEntry>, until: int)
    requires forall i :: 0 <= i < |log| ==> log[i].offset >= until
    ensures Kept(log, until) == log
  {
    if log != [] { KeptAll(log[..|log| - 1], until); }
  }

  // In an ascending log the kept entries are a suffix.
  lemma KeptSuffix(log: seq<LogEntry>, until: int, k: nat)
    requires Ascending(log) && k <= |log|
    requires k > 0 ==> log[k - 1].offset < until
    requires k < |log| ==> log[k].offset >= until
    ensures Kept(log, until) == log[k..]
  {
    var a, b := log[..k], log[k..];
    assert log == a + b;
    forall i | 0 <= i < |a| ensures a[i].offset < until {
      assert i < k - 1 ==> Before(log, i, k - 1);
    }
    forall i | 0 <= i < |b| ensures b[i].offset >= until {
      assert i > 0 ==> Before(log, k, k + i);
    }
    KeptConcat(a, b, until);
    KeptNone(a, until);
    KeptAll(b, until);
  }

  // A block that ends before "until" goes.
  lemma DroppedBlock(bs: seq<Block>, until: int)
    requires GoodBlocks(bs) && bs != [] && TailOffset(bs[0]) < until
    ensures GoodBlocks(bs[1..]) && Kept(Log(bs), until) == Kept(Log(bs[1..]), until)
  {
    FirstBlock(bs);
    DroppedOne(bs[0], until);
    hide *;
    KeptConcat(BlockLog(bs[0]), Log(bs[1..]), until);
    Seqs.NoUnit(Kept(Log(bs[1..]), until));
  }

  lemma DroppedOne(b: Block, until: int)
    requires Good(b) && TailOffset(b) < until
    ensures Kept(BlockLog(b), until) == []
  {
    var q := BlockLog(b);
    BlockAscends(b);
    forall i | 0 <= i < |q| ensures q[i].offset < until {
      assert i < |q| - 1 ==> Before(q, i, |q| - 1);
    }
    KeptNone(q, until);
  }

  // Number l is the first of the block that is logged at "until" or later.
  ghost predicate FirstFrom(b: Block, until: int, l: nat) {
    && b.tgno <= l < |b.deltas|
    && b.baseOffset + b.deltas[l] >= until
    && (l > b.tgno ==> b.baseOffset + b.deltas[l - 1] < until)
  }

  lemma CutOne(b: Block, until: int, l: nat)
    requires Good(b) && FirstFrom(b, until, l)
    ensures Good(b.(tgno := l)) && TailOffset(b.(tgno := l)) == TailOffset(b) && TailOffset(b) >= until
    ensures BlockLog(b.(tgno := l)) == Kept(BlockLog(b), until)
  {
    BlockAscends(b);
    CutEntries(b, l);
    assert l < |b.deltas| - 1 ==> Increasing(b.deltas, l, |b.deltas| - 1);
    var q, k := BlockLog(b), l - b.tgno;
    assert q[k] == EntryOf(b, l) && (k > 0 ==> q[k - 1] == EntryOf(b, l - 1));
    hide Good, BlockLog, Kept, Ascending;
    KeptSuffix(q, until, k);
  }

  lemma CutEntries(b: Block, l: nat)
    requires b.tgno <= l < |b.deltas|
    ensures BlockLog(b.(tgno := l)) == BlockLog(b)[l - b.tgno..]
  {
    var c := b.(tgno := l);
    assert forall i :: 0 <= i < |b.deltas| ==> EntryOf(c, i) == EntryOf(b, i);
  }

  // The first block is replaced by one that spans the same offsets.
  lemma GoodReplaced(bs: seq<Block>, c: Block)
    requires GoodBlocks(bs) && bs != [] && Good(c) && TailOffset(c) == TailOffset(bs[0])
    ensures GoodBlocks(bs[0 := c]) && bs[0 := c][1..] == bs[1..]
  {
    var t := bs[0 := c];
    forall i, j | 0 <= i < j < |t| ensures Follows(t, i, j) {
      assert Follows(bs, i, j);
    }
  }

  // A block that reaches "until" loses the entries before it.
  lemma CutBlock(bs: seq<Block>, until: int, l: nat)
    requires GoodBlocks(bs) && bs != [] && FirstFrom(bs[0], until, l)
    ensures GoodBlocks(bs[0 := bs[0].(tgno := l)]) && Log(bs[0 := bs[0].(tgno := l)]) == Kept(Log(bs), until)
  {
    var c := bs[0].(tgno := l);
    var t := bs[0 := c];
    CutOne(bs[0], until, l);
    GoodReplaced(bs, c);
    RestIsLater(bs);
    hide *;
    FirstBlock(bs);
    FirstBlock(t);
    KeptAll(Log(bs[1..]), until);
    KeptConcat(BlockLog(bs[0]), Log(bs[1..]), until);
  }

  lemma RestIsLater(bs: seq<Block>)
    requires GoodBlocks(bs) && bs != []
    ensures GoodBlocks(bs[1..]) && Good(bs[0]) && forall i :: 0 <= i < |Log(bs[1..])| ==> TailOffset(bs[0]) < Log(bs[1..])[i].offset
  {
    assert Good(bs[0]);
    hide Good, BlockLog, Follows, Log;
    FirstBlock(bs);
    LogAscends(bs);
    BlockAscends(bs[0]);
    var q, r := BlockLog(bs[0]), Log(bs[1..]);
    forall i | 0 <= i < |r| ensures TailOffset(bs[0]) < r[i].offset {
      assert Before(q + r, |q| - 1, |q| + i);
    }
  }
}
