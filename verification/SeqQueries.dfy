/** What may be asked of the log: the continue point of a request, and the ids from an offset on. */
module SeqQueries {
  import opened Intervals
  import opened IntervalEdits
  import opened Tables
  import opened SeqLogs
  import Seqs

  // The ids of gnos lo..hi of one uuid.
  ghost function RangeIds(uuid: Uuid, lo: int, hi: int): set<Id> {
    set g | g in Range(lo, hi) :: Id(uuid, g)
  }

  lemma IdsConcat(a: seq<LogEntry>, b: seq<LogEntry>)
    ensures IdsOf(a + b) == IdsOf(a) + IdsOf(b)
  {
    var s := a + b;
    forall x | x in IdsOf(s) ensures x in IdsOf(a) + IdsOf(b) {
      var i :| 0 <= i < |s| && Id(s[i].uuid, s[i].gno) == x;
      assert s[i] == if i < |a| then a[i] else b[i - |a|];
    }
    forall x | x in IdsOf(a) ensures x in IdsOf(s) {
      var i :| 0 <= i < |a| && Id(a[i].uuid, a[i].gno) == x;
      assert s[i] == a[i];
    }
    forall x | x in IdsOf(b) ensures x in IdsOf(s) {
      var i :| 0 <= i < |b| && Id(b[i].uuid, b[i].gno) == x;
      assert s[|a| + i] == b[i];
    }
  }

  // From number l on, a block is the ids of consecutive gnos.
  lemma BlockIds(b: Block, l: nat)
    requires b.tgno <= l <= |b.deltas|
    ensures IdsOf(BlockLog(b)[l - b.tgno..]) == RangeIds(b.uuid, b.baseGno + l, b.baseGno + |b.deltas| - 1)
  {
    var q := BlockLog(b)[l - b.tgno..];
    assert forall i :: 0 <= i < |q| ==> q[i] == EntryOf(b, l + i);
    forall x | x in RangeIds(b.uuid, b.baseGno + l, b.baseGno + |b.deltas| - 1) ensures x in IdsOf(q) {
      var i := x.gno - b.baseGno - l;
      assert q[i] == EntryOf(b, l + i);
    }
  }

  lemma HalvesOfInit(bs: seq<Block>, j: nat)
    requires j < |bs|
    ensures var n := |bs| - 1; bs[..n][..j] == bs[..j] && bs[j..][..n - j] == bs[..n][j..] && bs[j..][n - j] == bs[n]
  {
  }

  // The log in two halves.
  lemma {:induction false} LogHalves(bs: seq<Block>, j: nat)
    requires GoodBlocks(bs) && j <= |bs|
    ensures GoodBlocks(bs[..j]) && GoodBlocks(bs[j..]) && Log(bs) == Log(bs[..j]) + Log(bs[j..])
  {
    if j == |bs| {
      NoOtherHalf(bs);
    } else {
      LastBlock(bs);
      hide *;
      LogHalves(bs[..|bs| - 1], j);
      OneBlockMore(bs, j);
    }
  }

  lemma NoOtherHalf(bs: seq<Block>)
    requires GoodBlocks(bs)
    ensures bs[..|bs|] == bs && bs[|bs|..] == [] && GoodBlocks([]) && Log(bs) == Log(bs) + Log([])
  {
  }

  lemma OneBlockMore(bs: seq<Block>, j: nat)
    requires GoodBlocks(bs) && j < |bs|
    requires var p := bs[..|bs| - 1];
      GoodBlocks(p) && GoodBlocks(p[..j]) && GoodBlocks(p[j..]) && Log(p) == Log(p[..j]) + Log(p[j..])
    ensures GoodBlocks(bs[..j]) && GoodBlocks(bs[j..]) && Log(bs) == Log(bs[..j]) + Log(bs[j..])
  {
    var n := |bs| - 1;
    var p := bs[..n];
    Halves(bs, j);
    HalvesOfInit(bs, j);
    LastBlock(bs);
    LastBlock(bs[j..]);
    hide *;
    Seqs.Assoc(Log(p[..j]), Log(p[j..]), BlockLog(bs[n]));
  }

  lemma Halves(bs: seq<Block>, j: nat)
    requires GoodBlocks(bs) && j <= |bs|
    ensures GoodBlocks(bs[j..])
  {
    forall i, k | 0 <= i < k < |bs| - j ensures Follows(bs[j..], i, k) {
      assert Follows(bs, j + i, j + k);
    }
  }

  // One more block in front.
  lemma LogFrom(bs: seq<Block>, j: nat)
    requires GoodBlocks(bs) && 0 < j <= |bs|
    ensures GoodBlocks(bs[j..]) && GoodBlocks(bs[j - 1..]) && Good(bs[j - 1])
    ensures Log(bs[j - 1..]) == BlockLog(bs[j - 1]) + Log(bs[j..])
  {
    Halves(bs, j - 1);
    FirstBlock(bs[j - 1..]);
    assert bs[j - 1..][1..] == bs[j..];
  }

  // ----- The continue point ----------------------------------------------------------------------------

  // The request has nothing of this uuid at or beyond this gno.
  ghost predicate Unseen(req: set<Id>, e: LogEntry) {
    forall x :: x in req && x.uuid == e.uuid ==> x.gno < e.gno
  }

  ghost function GnosFor(ids: set<Id>, uuid: Uuid): set<int> {
    set x | x in ids && x.uuid == uuid :: x.gno
  }

  lemma GnosForIsAt(t: Table, uuid: Uuid)
    ensures GnosFor(Ids(t), uuid) == At(t, uuid)
  {
    forall g | g in At(t, uuid) ensures g in GnosFor(Ids(t), uuid) {
      assert Id(uuid, g) in Ids(t);
    }
  }

  ghost predicate AllUnseen(log: seq<LogEntry>, req: set<Id>) {
    forall i :: 0 <= i < |log| ==> Unseen(req, log[i])
  }

  // Where the longest suffix of unseen entries begins.
  ghost function Start(log: seq<LogEntry>, req: set<Id>): (k: nat)
    ensures k <= |log|
    ensures forall i :: k <= i < |log| ==> Unseen(req, log[i])
    ensures k > 0 ==> !Unseen(req, log[k - 1])
  {
    if log == [] || !Unseen(req, log[|log| - 1]) then |log| else Start(log[..|log| - 1], req)
  }

  lemma StartIs(log: seq<LogEntry>, req: set<Id>, k: nat)
    requires k <= |log| && forall i :: k <= i < |log| ==> Unseen(req, log[i])
    requires k > 0 ==> !Unseen(req, log[k - 1])
    ensures Start(log, req) == k
  {
    var s := Start(log, req);
  }

  // What a scan for the request has to return: the first offset, or -1, and the ids from there on.
  ghost predicate ContinuesAt(log: seq<LogEntry>, req: set<Id>, offset: int, ids: set<Id>) {
    var k := Start(log, req);
    offset == (if k < |log| then log[k].offset else -1) && ids == IdsOf(log[k..])
  }

  // No id from the continue point on is in the request.
  lemma ContinueIsNew(log: seq<LogEntry>, req: set<Id>, offset: int, ids: set<Id>)
    requires ContinuesAt(log, req, offset, ids)
    ensures ids !! req
  {
    var k := Start(log, req);
    forall x | x in ids ensures x !in req {
      var i :| 0 <= i < |log[k..]| && Id(log[k..][i].uuid, log[k..][i].gno) == x;
      assert log[k..][i] == log[k + i];
      assert Unseen(req, log[k + i]);
    }
  }

  // The blocks from number j on have been scanned and are all new.
  ghost predicate Scanned(bs: seq<Block>, req: set<Id>, j: nat, offset: int, ids: set<Id>)
    requires GoodBlocks(bs) && j <= |bs|
  {
    Halves(bs, j);
    var log := Log(bs[j..]);
    && AllUnseen(log, req)
    && offset == (if log != [] then log[0].offset else -1)
    && ids == IdsOf(log)
  }

  lemma ScanStarts(bs: seq<Block>, req: set<Id>)
    requires GoodBlocks(bs)
    ensures Scanned(bs, req, |bs|, -1, {})
  {
    assert bs[|bs|..] == [];
  }

  // With n the next gno of the request, exactly the gnos from n on are unseen.
  lemma SeenBelow(req: set<Id>, b: Block, i: nat, n: int)
    requires i < |b.deltas| && b.baseGno >= GNO_INITIAL && IsNext(n, GnosFor(req, b.uuid))
    ensures Unseen(req, EntryOf(b, i)) <==> n <= b.baseGno + i
  {
    if n <= b.baseGno + i {
      forall x | x in req && x.uuid == b.uuid ensures x.gno < b.baseGno + i {
        assert x.gno in GnosFor(req, b.uuid);
      }
    } else if n > GNO_INITIAL {
      assert n - 1 in GnosFor(req, b.uuid);
    }
  }

  // The scan stops inside, or before, block j - 1: from number l on its entries are new.
  lemma ScanEnds(bs: seq<Block>, req: set<Id>, j: nat, offset: int, ids: set<Id>, n: int, l: nat)
    requires GoodBlocks(bs) && 0 < j <= |bs| && Scanned(bs, req, j, offset, ids)
    requires StopsAt(bs[j - 1], req, n, l)
    ensures ContinuesAt(Log(bs), req, if l < |bs[j - 1].deltas| then bs[j - 1].baseOffset + bs[j - 1].deltas[l] else offset,
                        ids + RangeIds(bs[j - 1].uuid, bs[j - 1].baseGno + l, bs[j - 1].baseGno + |bs[j - 1].deltas| - 1))
  {
    hide *;
    LogHalves(bs, j - 1);
    LogFrom(bs, j);
    ScannedMeans(bs, req, j, offset, ids);
    ScanResult(Log(bs[..j - 1]), BlockLog(bs[j - 1]), Log(bs[j..]), bs[j - 1], req, n, l, offset, ids);
    Seqs.Assoc(Log(bs[..j - 1]), BlockLog(bs[j - 1]), Log(bs[j..]));
  }

  lemma ScannedMeans(bs: seq<Block>, req: set<Id>, j: nat, offset: int, ids: set<Id>)
    requires GoodBlocks(bs) && j <= |bs| && Scanned(bs, req, j, offset, ids)
    ensures GoodBlocks(bs[j..]) && ids == IdsOf(Log(bs[j..])) && AllUnseen(Log(bs[j..]), req)
    ensures offset == (if Log(bs[j..]) != [] then Log(bs[j..])[0].offset else -1)
  {
    Halves(bs, j);
  }

  // The first l entries of the block have been seen, the others not.
  ghost predicate StopsAt(b: Block, req: set<Id>, n: int, l: nat) {
    && IsNext(n, GnosFor(req, b.uuid)) && b.tgno < l <= |b.deltas|
    && (n == b.baseGno + l || (l == |b.deltas| && n > b.baseGno + l))
  }

  lemma ScanResult(a: seq<LogEntry>, q: seq<LogEntry>, r: seq<LogEntry>, b: Block, req: set<Id>,
                   n: int, l: nat, offset: int, ids: set<Id>)
    requires StopsAt(b, req, n, l) && Good(b) && q == BlockLog(b) && AllUnseen(r, req) && ids == IdsOf(r)
    requires offset == (if r != [] then r[0].offset else -1)
    ensures ContinuesAt(a + q + r, req, if l < |b.deltas| then b.baseOffset + b.deltas[l] else offset,
                        ids + RangeIds(b.uuid, b.baseGno + l, b.baseGno + |b.deltas| - 1))
  {
    var log, k := a + q + r, |a| + l - b.tgno;
    ScanStart(a, q, r, b, req, n, l);
    ScanRest(a, q, r, b, l);
    hide *;
    ContinuesFrom(log, req, k);
  }

  lemma ScanStart(a: seq<LogEntry>, q: seq<LogEntry>, r: seq<LogEntry>, b: Block, req: set<Id>, n: int, l: nat)
    requires StopsAt(b, req, n, l) && Good(b) && q == BlockLog(b) && AllUnseen(r, req)
    ensures Start(a + q + r, req) == |a| + l - b.tgno
  {
    ScanCut(a, q, r, b, req, n, l);
    hide *;
    StartIs(a + q + r, req, |a| + l - b.tgno);
  }

  lemma ScanRest(a: seq<LogEntry>, q: seq<LogEntry>, r: seq<LogEntry>, b: Block, l: nat)
    requires b.tgno <= l <= |b.deltas| && q == BlockLog(b)
    ensures var log, k := a + q + r, |a| + l - b.tgno;
      && k <= |log|
      && IdsOf(log[k..]) == IdsOf(r) + RangeIds(b.uuid, b.baseGno + l, b.baseGno + |b.deltas| - 1)
      && (if k < |log| then log[k].offset else -1)
         == (if l < |b.deltas| then b.baseOffset + b.deltas[l] else if r != [] then r[0].offset else -1)
  {
    var k := l - b.tgno;
    BlockIds(b, l);
    BlockEntry(b, l);
    hide *;
    RestOf(a, q, r, k);
    IdsConcat(q[k..], r);
    Commutes(IdsOf(q[k..]), IdsOf(r));
  }

  lemma BlockEntry(b: Block, l: nat)
    requires b.tgno <= l <= |b.deltas|
    ensures |BlockLog(b)| == |b.deltas| - b.tgno
    ensures l < |b.deltas| ==> BlockLog(b)[l - b.tgno] == EntryOf(b, l) && EntryOf(b, l).offset == b.baseOffset + b.deltas[l]
  {
  }

  lemma ContinuesFrom(log: seq<LogEntry>, req: set<Id>, k: nat)
    requires Start(log, req) == k
    ensures k <= |log| && ContinuesAt(log, req, if k < |log| then log[k].offset else -1, IdsOf(log[k..]))
  {
  }

  lemma RestOf(a: seq<LogEntry>, q: seq<LogEntry>, r: seq<LogEntry>, k: nat)
    requires k <= |q|
    ensures |a + q + r| == |a| + |q| + |r| && (a + q + r)[|a| + k..] == q[k..] + r
    ensures k < |q| ==> (a + q + r)[|a| + k] == q[k]
    ensures k == |q| && r != [] ==> (a + q + r)[|a| + k] == r[0]
  {
  }

  lemma ScanCut(a: seq<LogEntry>, q: seq<LogEntry>, r: seq<LogEntry>, b: Block, req: set<Id>, n: int, l: nat)
    requires StopsAt(b, req, n, l) && Good(b) && q == BlockLog(b) && AllUnseen(r, req)
    ensures 0 < |a| + l - b.tgno <= |a + q + r| && !Unseen(req, (a + q + r)[|a| + l - b.tgno - 1])
    ensures forall i :: |a| + l - b.tgno <= i < |a + q + r| ==> Unseen(req, (a + q + r)[i])
  {
    var s, k := a + q + r, |a| + l - b.tgno;
    assert s[k - 1] == EntryOf(b, l - 1);
    SeenBelow(req, b, l - 1, n);
    forall i | k <= i < |s| ensures Unseen(req, s[i]) {
      if i < |a| + |q| {
        assert s[i] == EntryOf(b, b.tgno + i - |a|);
        SeenBelow(req, b, b.tgno + i - |a|, n);
      } else {
        assert s[i] == r[i - |a| - |q|];
      }
    }
  }

  // The whole of block j - 1 is new.
  lemma ScanGoesOn(bs: seq<Block>, req: set<Id>, j: nat, offset: int, ids: set<Id>, n: int)
    requires GoodBlocks(bs) && 0 < j <= |bs| && Scanned(bs, req, j, offset, ids)
    requires var b := bs[j - 1]; IsNext(n, GnosFor(req, b.uuid)) && n <= b.baseGno + b.tgno
    ensures bs[j - 1].tgno < |bs[j - 1].deltas|
    ensures Scanned(bs, req, j - 1, bs[j - 1].baseOffset + bs[j - 1].deltas[bs[j - 1].tgno],
      ids + RangeIds(bs[j - 1].uuid, bs[j - 1].baseGno + bs[j - 1].tgno, bs[j - 1].baseGno + |bs[j - 1].deltas| - 1))
  {
    hide *;
    LogFrom(bs, j);
    GoodHasEntries(bs[j - 1]);
    ScannedMeans(bs, req, j, offset, ids);
    BlockUnseen(bs[j - 1], Log(bs[j..]), req, n);
    BlockFirst(bs[j - 1], Log(bs[j..]));
    ScannedFrom(bs, req, j - 1, BlockLog(bs[j - 1]) + Log(bs[j..]));
  }

  lemma BlockFirst(b: Block, r: seq<LogEntry>)
    requires b.tgno < |b.deltas|
    ensures var q := BlockLog(b);
      && q + r != [] && (q + r)[0].offset == b.baseOffset + b.deltas[b.tgno]
      && IdsOf(q + r) == IdsOf(r) + RangeIds(b.uuid, b.baseGno + b.tgno, b.baseGno + |b.deltas| - 1)
  {
    BlockEntry(b, b.tgno);
    BlockAllIds(b);
    hide *;
    IdsConcat(BlockLog(b), r);
    Commutes(IdsOf(BlockLog(b)), IdsOf(r));
  }

  lemma BlockAllIds(b: Block)
    requires b.tgno <= |b.deltas|
    ensures IdsOf(BlockLog(b)) == RangeIds(b.uuid, b.baseGno + b.tgno, b.baseGno + |b.deltas| - 1)
  {
    BlockIds(b, b.tgno);
    hide *;
    assert BlockLog(b)[0..] == BlockLog(b);
  }

  lemma Commutes(x: set<Id>, y: set<Id>)
    ensures x + y == y + x
  {
  }

  lemma BlockUnseen(b: Block, r: seq<LogEntry>, req: set<Id>, n: int)
    requires b.tgno < |b.deltas| && b.baseGno >= GNO_INITIAL && AllUnseen(r, req)
    requires IsNext(n, GnosFor(req, b.uuid)) && n <= b.baseGno + b.tgno
    ensures AllUnseen(BlockLog(b) + r, req)
  {
    var q := BlockLog(b);
    hide Unseen, IsNext;
    forall i | 0 <= i < |q + r| ensures Unseen(req, (q + r)[i]) {
      if i < |q| {
        assert q[i] == EntryOf(b, b.tgno + i);
        SeenBelow(req, b, b.tgno + i, n);
      }
    }
  }

  lemma ScannedFrom(bs: seq<Block>, req: set<Id>, j: nat, log: seq<LogEntry>)
    requires GoodBlocks(bs) && j <= |bs| && GoodBlocks(bs[j..]) && Log(bs[j..]) == log && AllUnseen(log, req)
    ensures Scanned(bs, req, j, if log != [] then log[0].offset else -1, IdsOf(log))
  {
  }

  // Nothing is left to scan: the whole log is new.
  lemma ScanIsComplete(bs: seq<Block>, req: set<Id>, offset: int, ids: set<Id>)
    requires GoodBlocks(bs) && Scanned(bs, req, 0, offset, ids)
    ensures ContinuesAt(Log(bs), req, offset, ids)
  {
    assert bs[0..] == bs;
    StartIs(Log(bs), req, 0);
    assert Log(bs)[0..] == Log(bs);
  }

  // ----- From an offset on -------------------------------------------------------------------------------

  // A scan from an offset: blocks from number j on are in, and lie beyond it.
  ghost predicate Gathered(bs: seq<Block>, from: int, j: nat, ids: set<Id>)
    requires GoodBlocks(bs) && j <= |bs|
  {
    Halves(bs, j);
    ids == IdsOf(Kept(Log(bs[j..]), from)) && Kept(Log(bs[j..]), from) == Log(bs[j..])
  }

  lemma GatherStarts(bs: seq<Block>, from: int)
    requires GoodBlocks(bs)
    ensures Gathered(bs, from, |bs|, {})
  {
    assert bs[|bs|..] == [];
  }

  lemma GatherGoesOn(bs: seq<Block>, from: int, j: nat, ids: set<Id>)
    requires GoodBlocks(bs) && 0 < j <= |bs| && Gathered(bs, from, j, ids)
    requires Good(bs[j - 1]) && bs[j - 1].baseOffset + bs[j - 1].deltas[bs[j - 1].tgno] >= from
    ensures Gathered(bs, from, j - 1,
      ids + RangeIds(bs[j - 1].uuid, bs[j - 1].baseGno + bs[j - 1].tgno, bs[j - 1].baseGno + |bs[j - 1].deltas| - 1))
  {
    hide *;
    LogFrom(bs, j);
    GoodHasEntries(bs[j - 1]);
    GatheredMeans(bs, from, j, ids);
    BlockKept(bs[j - 1], from);
    BlockFirst(bs[j - 1], Log(bs[j..]));
    KeptConcat(BlockLog(bs[j - 1]), Log(bs[j..]), from);
    GatheredFrom(bs, from, j - 1, BlockLog(bs[j - 1]) + Log(bs[j..]));
  }

  lemma GoodHasEntries(b: Block)
    requires Good(b)
    ensures b.tgno < |b.deltas| && b.baseGno >= GNO_INITIAL
  {
  }

  lemma BlockKept(b: Block, from: int)
    requires Good(b) && b.baseOffset + b.deltas[b.tgno] >= from
    ensures Kept(BlockLog(b), from) == BlockLog(b)
  {
    var q := BlockLog(b);
    BlockAscends(b);
    BlockEntry(b, b.tgno);
    forall i | 0 <= i < |q| ensures q[i].offset >= from {
      assert i > 0 ==> Before(q, 0, i);
    }
    KeptAll(q, from);
  }

  lemma GatheredFrom(bs: seq<Block>, from: int, j: nat, log: seq<LogEntry>)
    requires GoodBlocks(bs) && j <= |bs| && GoodBlocks(bs[j..]) && Log(bs[j..]) == log && Kept(log, from) == log
    ensures Gathered(bs, from, j, IdsOf(log))
  {
  }

  // Number l is the first of block j - 1 at or beyond the offset, or its length if there is none.
  ghost predicate Cutoff(b: Block, from: int, l: nat) {
    && b.tgno <= l <= |b.deltas|
    && (l < |b.deltas| ==> b.baseOffset + b.deltas[l] >= from)
    && (l > b.tgno ==> b.baseOffset + b.deltas[l - 1] < from)
  }

  lemma GatherEnds(bs: seq<Block>, from: int, j: nat, ids: set<Id>, l: nat)
    requires GoodBlocks(bs) && 0 < j <= |bs| && Gathered(bs, from, j, ids)
    requires Cutoff(bs[j - 1], from, l) && bs[j - 1].tgno < l
    ensures ids + RangeIds(bs[j - 1].uuid, bs[j - 1].baseGno + l, bs[j - 1].baseGno + |bs[j - 1].deltas| - 1)
         == IdsOf(Kept(Log(bs), from))
  {
    hide *;
    LogHalves(bs, j - 1);
    LogFrom(bs, j);
    LogAscends(bs);
    GatheredMeans(bs, from, j, ids);
    GatherResult(Log(bs[..j - 1]), BlockLog(bs[j - 1]), Log(bs[j..]), bs[j - 1], from, l, ids);
  }

  lemma GatheredMeans(bs: seq<Block>, from: int, j: nat, ids: set<Id>)
    requires GoodBlocks(bs) && j <= |bs| && Gathered(bs, from, j, ids)
    ensures GoodBlocks(bs[j..]) && Kept(Log(bs[j..]), from) == Log(bs[j..]) && ids == IdsOf(Log(bs[j..]))
  {
    Halves(bs, j);
  }

  lemma GatherResult(a: seq<LogEntry>, q: seq<LogEntry>, r: seq<LogEntry>, b: Block, from: int, l: nat, ids: set<Id>)
    requires Good(b) && q == BlockLog(b) && Cutoff(b, from, l) && b.tgno < l && Ascending(a + (q + r))
    requires Kept(r, from) == r && ids == IdsOf(r)
    ensures ids + RangeIds(b.uuid, b.baseGno + l, b.baseGno + |b.deltas| - 1) == IdsOf(Kept(a + (q + r), from))
  {
    BlockAscends(b);
    BlockIds(b, l);
    var k := l - b.tgno;
    assert q[k - 1] == EntryOf(b, l - 1) && (k < |q| ==> q[k] == EntryOf(b, l));
    forall i | 0 <= i < |a| ensures a[i].offset < from {
      assert Before(a + (q + r), i, |a| + k - 1);
    }
    hide Good, BlockLog, RangeIds, IdsOf, Kept, Ascending, Cutoff;
    KeptNone(a, from);
    KeptSuffix(q, from, k);
    KeptConcat(q, r, from);
    KeptConcat(a, q + r, from);
    Seqs.NoUnit(q[k..] + r);
    IdsConcat(q[k..], r);
  }

  lemma GatherIsComplete(bs: seq<Block>, from: int, ids: set<Id>)
    requires GoodBlocks(bs) && Gathered(bs, from, 0, ids)
    ensures ids == IdsOf(Kept(Log(bs), from))
  {
    assert bs[0..] == bs;
  }

  // Both queries agree: the ids from the continue point are those from its offset on.
  lemma QueriesAgree(log: seq<LogEntry>, req: set<Id>, offset: int, ids: set<Id>)
    requires Ascending(log) && ContinuesAt(log, req, offset, ids) && Start(log, req) < |log|
    ensures ids == IdsOf(Kept(log, offset))
  {
    var k := Start(log, req);
    assert k > 0 ==> Before(log, k - 1, k);
    KeptSuffix(log, offset, k);
  }
}
