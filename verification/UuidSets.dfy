/** The gnos of one uuid. */
module UuidSets {
  import opened Intervals
  import opened IntervalEdits
  import opened SkipLists
  import opened Tables
  import Lists = SkipListSets

  // What a pair (start, end) stands for: an invalid one is ignored.
  function Given(start: int, end: int): (r: set<int>) {
    if ValidRange(start, end) then Range(start, end) else {}
  }

  class UuidSet {
    const uuid: Uuid
    const intervals: SkipList
    var next: UuidSet?

    ghost function Repr(): set<object>
      reads intervals
    {
      intervals.Repr()
    }

    ghost predicate Valid()
      reads intervals, Repr()
    {
      intervals in Repr() && intervals.Valid()
    }

    // This uuid set as a row of the table.
    ghost function Row(): Entry
      reads intervals
    {
      Entry(uuid, intervals.Set(), intervals.gnoCount)
    }

    constructor (uuid: Uuid)
      ensures this.uuid == uuid && next == null && Valid() && fresh(intervals) && fresh(Repr())
      ensures Row() == Entry(uuid, {}, 0)
    {
      this.uuid := uuid;
      next := null;
      intervals := new SkipList();
    }

    constructor Around(uuid: Uuid, intervals: SkipList)
      requires intervals.Valid()
      ensures this.uuid == uuid && this.intervals == intervals && next == null && Valid()
    {
      this.uuid := uuid;
      this.intervals := intervals;
      next := null;
    }

    lemma HoldsItsList()
      requires Valid()
      ensures intervals in Repr()
    {
    }

    method Dup() returns (r: UuidSet)
      requires Valid()
      ensures fresh(r) && fresh(r.Repr()) && r.Valid() && r.next == null && r.Row() == Row()
    {
      var copy := Lists.Dup(intervals);
      r := new UuidSet.Around(uuid, copy);
      r.intervals.CountIsExact();
      intervals.CountIsExact();
    }

    function Count(): (count: int)
      requires Valid()
      reads intervals, Repr()
      ensures count == |Row().gnos| == Row().count
    {
      intervals.CountIsExact();
      intervals.gnoCount
    }

    method Add(start: int, end: int) returns (added: int)
      requires Valid() && end < GNO_MAX
      modifies Repr()
      ensures Valid() && forall o :: o in Repr() ==> o in old(Repr()) || fresh(o)
      ensures Row() == Entry(uuid, old(Row().gnos) + Given(start, end), old(Row().count) + added)
    {
      if !ValidRange(start, end) { return 0; }
      added := intervals.Add(start, end);
    }

    method Remove(start: int, end: int) returns (removed: int)
      requires Valid() && end < GNO_MAX
      modifies Repr()
      ensures Valid() && forall o :: o in Repr() ==> o in old(Repr()) || fresh(o)
      ensures Row() == Entry(uuid, old(Row().gnos) - Given(start, end), old(Row().count) - removed)
    {
      if !ValidRange(start, end) { return 0; }
      removed := intervals.Remove(start, end);
    }

    method Merge(src: UuidSet) returns (added: int)
      requires Valid() && src.Valid() && Repr() !! src.Repr()
      modifies Repr()
      ensures Valid() && forall o :: o in Repr() ==> o in old(Repr()) || fresh(o)
      ensures Row() == Entry(uuid, old(Row().gnos) + (if uuid == src.uuid then old(src.Row().gnos) else {}), old(Row().count) + added)
    {
      if uuid != src.uuid { return 0; }
      added := Lists.Merge(intervals, src.intervals);
    }

    method Diff(src: UuidSet) returns (removed: int)
      requires Valid() && src.Valid() && (intervals == src.intervals || Repr() !! src.Repr())
      modifies Repr()
      ensures Valid() && forall o :: o in Repr() ==> o in old(Repr()) || fresh(o)
      ensures Row() == Entry(uuid, old(Row().gnos) - (if uuid == src.uuid then old(src.Row().gnos) else {}), old(Row().count) - removed)
    {
      if uuid != src.uuid { return 0; }
      removed := Lists.Diff(intervals, src.intervals);
    }

    method Contains(gno: int) returns (found: bool)
      requires Valid()
      ensures found == (gno in Row().gnos)
    {
      AfterIsNext(intervals.ivals);
      if !ValidRange(1, gno) { return false; }
      found := intervals.Contains(gno);
    }

    function NextGno(): (gno: int)
      requires Valid()
      reads intervals, Repr()
      ensures IsNext(gno, Row().gnos)
    {
      intervals.NextGno()
    }

    // The number after the last one; with "update" it is added.
    method Next(update: bool) returns (gno: int)
      requires Valid() && (update ==> forall g :: g in Row().gnos ==> g + 1 < GNO_MAX)
      modifies Repr()
      ensures Valid() && forall o :: o in Repr() ==> o in old(Repr()) || fresh(o)
      ensures IsNext(gno, old(Row().gnos))
      ensures Row() == (if update then Entry(uuid, old(Row().gnos) + {gno}, old(Row().count) + 1) else old(Row()))
      ensures !update ==> unchanged(old(Repr()))
    {
      AfterIsNext(intervals.ivals);
      intervals.TailIsLast();
      assert intervals.tail.end == 0 || intervals.tail.end in Row().gnos;
      gno := intervals.Next(update);
    }
  }
}
