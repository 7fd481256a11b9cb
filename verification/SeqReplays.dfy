/** A sequence index that is taken through a whole run. */
module SeqReplays {
  import opened GtidSeqs
  import opened Intervals
  import opened SeqLogs
  import opened SeqRuns
  import GtidSeqScans

  // What Append demands of its caller: a good gno, and an offset after the last one that is indexed.
  ghost predicate MayApply(log: seq<LogEntry>, op: Op) {
    op.Append? ==>
      GNO_INITIAL <= op.entry.gno < GNO_MAX && (log != [] ==> log[|log| - 1].offset < op.entry.offset)
  }

  ghost predicate Runnable(ops: seq<Op>) {
    ops == [] || (var n := |ops| - 1; Runnable(ops[..n]) && MayApply(Run(ops[..n]), ops[n]))
  }

  lemma {:induction false} RunnableTo(ops: seq<Op>, n: nat)
    requires Runnable(ops) && n < |ops|
    ensures MayApply(Run(ops[..n]), ops[n]) && Run(ops[..n + 1]) == Apply(Run(ops[..n]), ops[n])
  {
    assert ops[..n + 1][..n] == ops[..n];
    if n < |ops| - 1 {
      var p := ops[..|ops| - 1];
      RunnableTo(p, n);
      assert p[..n] == ops[..n] && p[..n + 1] == ops[..n + 1];
    } else {
      assert ops[..n + 1] == ops;
    }
  }

  // The index holds what the run of the log says, and its segments stay as many as were ever in use at once.
  method Replay(ops: seq<Op>) returns (index: GtidSeq)
    requires Runnable(ops)
    ensures fresh(index) && index.Valid() && Log(index.blocks) == Run(ops) && |index.segs| + |index.frees| <= index.peak
    ensures AboveCutoffs(ops) ==> Log(index.blocks) == History(ops, |ops|, Largest(ops))
  {
    hide GtidSeq.Valid, Log, GoodBlocks, Kept, Run, Runnable, History, Largest;
    index := new GtidSeq();
    NothingRun(ops, index);
    var n := 0;
    while n < |ops|
      invariant n <= |ops| && fresh(index) && index.Valid() && GoodBlocks(index.blocks)
      invariant (forall s :: s in index.members ==> fresh(s)) && forall o :: o in index.arrays ==> fresh(o)
      invariant Log(index.blocks) == Run(ops[..n])
    {
      RunnableTo(ops, n);
      match ops[n] {
        case Append(e) => index.Append(e.uuid, e.gno, e.offset);
        case Trim(until) => index.Trim(until);
      }
      GtidSeqScans.Begins(index);
      n := n + 1;
    }
    assert ops[..n] == ops;
    Bounded(index);
    if AboveCutoffs(ops) {
      NeverBelow(ops);
      RunIsCutHistory(ops);
    }
  }

  lemma NothingRun(ops: seq<Op>, index: GtidSeq)
    requires index.blocks == []
    ensures GoodBlocks(index.blocks) && Log(index.blocks) == Run(ops[..0])
  {
  }

  lemma Bounded(index: GtidSeq)
    requires index.Valid()
    ensures |index.segs| + |index.frees| <= index.peak
  {
  }
}
