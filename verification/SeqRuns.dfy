/** Whole runs of Append and Trim, seen on the log. */
module SeqRuns {
  import opened Tables
  import opened SeqLogs
  import Seqs

  datatype Op = Append(entry: LogEntry) | Trim(until: int)

  ghost function Apply(log: seq<LogEntry>, op: Op): seq<LogEntry> {
    match op
    case Append(e) => log + [e]
    case Trim(until) => Kept(log, until)
  }

  ghost function Run(ops: seq<Op>): seq<LogEntry> {
    if ops == [] then [] else Apply(Run(ops[..|ops| - 1]), ops[|ops| - 1])
  }

  // Op number i appended an entry that no later trim has cut off.
  predicate Spared(ops: seq<Op>, i: nat, j: nat)
    requires i < |ops| && j < |ops|
  {
    ops[i].Append? && (ops[j].Trim? ==> ops[j].until <= ops[i].entry.offset)
  }

  ghost predicate Survives(ops: seq<Op>, i: nat)
    requires i < |ops|
  {
    ops[i].Append? && forall j :: i < j < |ops| ==> Spared(ops, i, j)
  }

  // The surviving entries among the first n operations, in order.
  ghost function Survivors(ops: seq<Op>, n: nat): seq<LogEntry>
    requires n <= |ops|
  {
    if n == 0 then []
    else Survivors(ops, n - 1) + (if Survives(ops, n - 1) then [ops[n - 1].entry] else [])
  }

  // After any run the log holds exactly the appended entries that no later trim cut off.
  lemma {:induction false} RunKeepsSurvivors(ops: seq<Op>)
    ensures Run(ops) == Survivors(ops, |ops|)
  {
    if ops != [] {
      var n := |ops| - 1;
      var p := ops[..n];
      RunKeepsSurvivors(p);
      match ops[n]
      case Append(e) =>
        OneMoreAppend(ops, n);
      case Trim(until) =>
        OneMoreTrim(ops, n, until);
    }
  }

  lemma {:induction false} OneMoreAppend(ops: seq<Op>, n: nat)
    requires n < |ops| && ops[|ops| - 1].Append?
    ensures Survivors(ops, n) == Survivors(ops[..|ops| - 1], n)
    ensures Survives(ops, |ops| - 1)
  {
    if n > 0 {
      OneMoreAppend(ops, n - 1);
      SurvivesMore(ops, n - 1);
    }
  }

  // The last operation matters only if it is a trim above the entry.
  lemma SurvivesMore(ops: seq<Op>, i: nat)
    requires i < |ops| - 1
    ensures Survives(ops, i) <==> Survives(ops[..|ops| - 1], i) && Spared(ops, i, |ops| - 1)
  {
    var p := ops[..|ops| - 1];
    assert forall j :: i < j < |p| ==> Spared(p, i, j) == Spared(ops, i, j);
  }

  lemma {:induction false} OneMoreTrim(ops: seq<Op>, n: nat, until: int)
    requires n < |ops| && ops[|ops| - 1] == Trim(until)
    ensures Survivors(ops, n) == Kept(Survivors(ops[..|ops| - 1], n), until)
    ensures !Survives(ops, |ops| - 1)
  {
    if n > 0 {
      var p := ops[..|ops| - 1];
      OneMoreTrim(ops, n - 1, until);
      SurvivesMore(ops, n - 1);
      hide Survives, Kept;
      KeptLast(Survivors(p, n - 1), p[n - 1], Survives(p, n - 1), until);
    }
  }

  lemma KeptLast(log: seq<LogEntry>, op: Op, there: bool, until: int)
    requires there ==> op.Append?
    ensures Kept(log + (if there then [op.entry] else []), until) ==
      Kept(log, until) + (if there && op.entry.offset >= until then [op.entry] else [])
  {
    if there {
      assert (log + [op.entry])[..|log|] == log;
    } else {
      Seqs.NoUnit(log);
    }
  }

  // ----- The largest cutoff ------------------------------------------------------------------------

  datatype Cutoff = None | At(offset: int)

  // The largest cutoff that any trim has used.
  ghost function Largest(ops: seq<Op>): Cutoff {
    if ops == [] then None
    else match ops[|ops| - 1]
      case Append(_) => Largest(ops[..|ops| - 1])
      case Trim(u) => var c := Largest(ops[..|ops| - 1]); if c.At? && c.offset >= u then c else At(u)
  }

  predicate Reaches(e: LogEntry, c: Cutoff) {
    c.At? ==> e.offset >= c.offset
  }

  lemma {:induction false} LargestBounds(ops: seq<Op>, j: nat)
    requires j < |ops| && ops[j].Trim?
    ensures Largest(ops).At? && ops[j].until <= Largest(ops).offset
  {
    if j < |ops| - 1 { LargestBounds(ops[..|ops| - 1], j); }
  }

  lemma {:induction false} LargestIsUsed(ops: seq<Op>) returns (j: nat)
    requires Largest(ops).At?
    ensures j < |ops| && ops[j] == Trim(Largest(ops).offset)
  {
    j := |ops| - 1;
    if Largest(ops) == Largest(ops[..j]) && ops[j] != Trim(Largest(ops).offset) {
      j := LargestIsUsed(ops[..j]);
    }
  }

  // Everything appended by the first n operations that reaches the cutoff.
  ghost function History(ops: seq<Op>, n: nat, c: Cutoff): seq<LogEntry>
    requires n <= |ops|
  {
    if n == 0 then []
    else History(ops, n - 1, c) + (if ops[n - 1].Append? && Reaches(ops[n - 1].entry, c) then [ops[n - 1].entry] else [])
  }

  // An entry below the largest cutoff outlives the run only if it was appended after that trim.
  ghost predicate NoLowSurvivor(ops: seq<Op>) {
    forall i :: 0 <= i < |ops| && Survives(ops, i) ==> Reaches(ops[i].entry, Largest(ops))
  }

  // The log is the append history from the largest cutoff on exactly if no low entry outlives the run.
  lemma RunIsCutHistory(ops: seq<Op>)
    ensures Run(ops) == History(ops, |ops|, Largest(ops)) <==> NoLowSurvivor(ops)
  {
    RunKeepsSurvivors(ops);
    if NoLowSurvivor(ops) {
      SameEntries(ops, |ops|);
    }
    if Run(ops) == History(ops, |ops|, Largest(ops)) {
      forall i | 0 <= i < |ops| && Survives(ops, i) ensures Reaches(ops[i].entry, Largest(ops)) {
        var k := SurvivorAt(ops, |ops|, i);
        HistoryReaches(ops, |ops|, Largest(ops));
      }
    }
  }

  lemma {:induction false} SameEntries(ops: seq<Op>, n: nat)
    requires NoLowSurvivor(ops) && n <= |ops|
    ensures Survivors(ops, n) == History(ops, n, Largest(ops))
  {
    if n > 0 {
      SameEntries(ops, n - 1);
      if ops[n - 1].Append? && Reaches(ops[n - 1].entry, Largest(ops)) {
        var i := n - 1;
        forall j | i < j < |ops| ensures Spared(ops, i, j) {
          if ops[j].Trim? { LargestBounds(ops, j); }
        }
        assert Survives(ops, i);
      }
    }
  }

  lemma {:induction false} SurvivorAt(ops: seq<Op>, n: nat, i: nat) returns (k: nat)
    requires i < n <= |ops| && Survives(ops, i)
    ensures k < |Survivors(ops, n)| && Survivors(ops, n)[k] == ops[i].entry
  {
    if i == n - 1 {
      k := |Survivors(ops, n - 1)|;
    } else {
      k := SurvivorAt(ops, n - 1, i);
    }
  }

  lemma {:induction false} HistoryReaches(ops: seq<Op>, n: nat, c: Cutoff)
    requires n <= |ops|
    ensures forall k :: 0 <= k < |History(ops, n, c)| ==> Reaches(History(ops, n, c)[k], c)
  {
    if n > 0 { HistoryReaches(ops, n - 1, c); }
  }

  // A caller can see to it: never append below a cutoff that has been used.
  ghost predicate AboveCutoffs(ops: seq<Op>) {
    ops == [] || (var n := |ops| - 1;
      AboveCutoffs(ops[..n]) && (ops[n].Append? ==> Reaches(ops[n].entry, Largest(ops[..n]))))
  }

  lemma {:induction false} NeverBelow(ops: seq<Op>)
    requires AboveCutoffs(ops)
    ensures NoLowSurvivor(ops)
  {
    if ops != [] {
      var n := |ops| - 1;
      var p := ops[..n];
      NeverBelow(p);
      forall i | 0 <= i < |ops| && Survives(ops, i) ensures Reaches(ops[i].entry, Largest(ops)) {
        if i < n {
          assert forall j :: i < j < n ==> Spared(ops, i, j) ==> Spared(p, i, j);
          assert Survives(p, i) && p[i] == ops[i];
          assert Spared(ops, i, n);
        }
      }
    }
  }

  // An entry appended below an earlier cutoff stays: here 50, after a trim up to 100.
  lemma LowAppendStays()
    ensures Run([Trim(100), Append(LogEntry("A", 1, 50))]) == [LogEntry("A", 1, 50)]
    ensures History([Trim(100), Append(LogEntry("A", 1, 50))], 2, At(100)) == []
    ensures Largest([Trim(100), Append(LogEntry("A", 1, 50))]) == At(100)
  {
    var e := LogEntry("A", 1, 50);
    var ops := [Trim(100), Append(e)];
    assert ops[..1] == [Trim(100)] && ops[..1][..0] == [];
    assert Run(ops[..1]) == Kept([], 100);
    assert [e][..0] == [];
  }
}
