/** How a server numbers its own transactions, over its executed and lost sets. */
module Numbering {
  import opened GtidSetAlgebra
  import opened GtidSets
  import opened Intervals
  import opened IntervalEdits
  import opened NextGnos
  import opened Tables
  import opened UuidSets

  lemma FewerAt(t: Table, b: Table, uuid: Uuid)
    ensures At(Difference(t, b), uuid) <= At(t, uuid)
  {
  }

  lemma UnionAt(t: Table, b: Table, uuid: Uuid)
    ensures At(Union(t, b), uuid) == At(t, uuid) + At(b, uuid)
  {
  }

  lemma OwnRow(t: Table, uuid: Uuid, gno: int)
    requires gno >= GNO_INITIAL
    ensures Given(gno, gno) == {gno} && At(Added(t, uuid, {gno}), uuid) == At(t, uuid) + {gno}
  {
  }

  // Makes the own uuid current in a set that is to be the executed one.
  method Attach(gtids: GtidSet, lost: GtidSet, uuid: Uuid)
    requires gtids.Valid() && lost.Valid() && Disjoint(gtids, lost)
    modifies gtids, gtids.repr, gtids.members`next
    ensures gtids.Valid() && lost.Valid() && Disjoint(gtids, lost) && lost.Map() == old(lost.Map())
    ensures forall o :: o in gtids.repr ==> o in old(gtids.repr) || fresh(o)
    ensures forall u :: u in gtids.members ==> u in old(gtids.members) || fresh(u)
    ensures gtids.current != null && gtids.current.uuid == uuid && gtids.curnext == old(gtids.curnext)
    ensures Ids(gtids.Map()) == Ids(old(gtids.Map()))
  {
    hide GtidSet.Valid, GtidSet.Listed, GtidSet.Map, GtidSet.Total, Added;
    AddedIds(gtids.Map(), uuid, {});
    gtids.CurrentUuidSetUpdate(uuid);
  }

  // serverGtidSetCurrrentUuidSetUpdateNextGno, on the two sets.
  method UpdateNextGno(executed: GtidSet, lost: GtidSet, uuid: Uuid)
    requires executed.Valid() && lost.Valid() && Disjoint(executed, lost) && lost.current == null
    requires executed.current != null && executed.current.uuid == uuid && executed.curnext >= 0
    requires MayChoose(executed.curnext, At(executed.Map(), uuid), At(lost.Map(), uuid))
    modifies executed, executed.repr, lost, lost.repr, lost.members`next
    ensures executed.Valid() && lost.Valid() && Disjoint(executed, lost) && lost.current == null
    ensures executed.current == old(executed.current) && executed.members == old(executed.members)
    ensures executed.Map() == old(executed.Map()) && lost.Map() == old(lost.Map())
    ensures forall o :: o in executed.repr ==> o in old(executed.repr) || fresh(o)
    ensures forall o :: o in lost.repr ==> o in old(lost.repr) || fresh(o)
    ensures executed.curnext == Updated(old(executed.curnext), At(executed.Map(), uuid), At(lost.Map(), uuid)) >= 0
  {
    hide GtidSet.Valid, GtidSet.Listed, GtidSet.Map, GtidSet.Total, Added, At, IsNext;
    ghost var e, l := At(executed.Map(), uuid), At(lost.Map(), uuid);
    var curnext := executed.CurrentUuidSetNext(false);
    var lostnext := lost.Next(uuid, false);
    NextOfIs(curnext, e);
    NextOfIs(lostnext, l);
    NextIsPositive(l);
    assert executed.current.uuid == uuid && At(executed.Map(), executed.current.uuid) == e;
    if curnext < lostnext {
      assert IsNext(NextOf(e), e) && NextOf(e) <= lostnext;
      executed.CurrentUuidSetSetNextGno(lostnext);
    }
  }

  lemma NextOfIs(n: int, e: set<int>)
    ensures IsNext(n, e) ==> n == NextOf(e)
  {
    if IsNext(n, e) {
      NextIsUnique(n, NextOf(e), e);
    }
  }

  lemma NextIsPositive(e: set<int>)
    ensures NextOf(e) >= GNO_INITIAL
  {
  }

  lemma Empty(s: GtidSet, uuid: Uuid)
    requires s.entries == []
    ensures Ids(s.Map()) == {} && At(s.Map(), uuid) == {}
  {
  }

  // Adding one gno of an id that is not there; none is added if it is below 1.
  lemma OneGno(t: Table, id: Id, uuid: Uuid)
    requires id !in Ids(t)
    ensures var u := Added(t, id.uuid, Given(id.gno, id.gno)); var good := id.gno >= GNO_INITIAL;
            && Ids(u) == Ids(t) + (if good then {id} else {}) && |Ids(u)| == |Ids(t)| + (if good then 1 else 0)
            && At(u, uuid) == At(t, uuid) + (if good && id.uuid == uuid then {id.gno} else {})
  {
    AddedIds(t, id.uuid, Given(id.gno, id.gno));
    AddedAt(t, id.uuid, Given(id.gno, id.gno), uuid);
    GivenOne(id);
    hide *;
    WithOne(Ids(t), id);
  }

  lemma GivenOne(id: Id)
    ensures Given(id.gno, id.gno) == if id.gno >= GNO_INITIAL then {id.gno} else {}
    ensures (set g | g in Given(id.gno, id.gno) :: Id(id.uuid, g)) == if id.gno >= GNO_INITIAL then {id} else {}
  {
  }

  lemma AddedAt(t: Table, u: Uuid, gnos: set<int>, uuid: Uuid)
    ensures At(Added(t, u, gnos), uuid) == At(t, uuid) + (if u == uuid then gnos else {})
  {
  }

  lemma WithOne(s: set<Id>, id: Id)
    requires id !in s
    ensures |s + {id}| == |s| + 1 && s + {} == s
  {
  }

  lemma OwnGnos(t: Table, uuid: Uuid)
    ensures forall g :: g in At(t, uuid) <==> Id(uuid, g) in Ids(t)
  {
  }

  class Server {
    var uuid: Uuid
    var executed: GtidSet
    var lost: GtidSet

    ghost predicate Valid()
      reads this, executed, lost, executed.repr, lost.repr, executed.members`next, lost.members`next
    {
      Sound() && Ahead(executed.curnext, Executed(), Lost())
    }

    // All but the numbering.
    ghost predicate Sound()
      reads this, executed, lost, executed.repr, lost.repr, executed.members`next, lost.members`next
    {
      && executed.Valid() && lost.Valid() && Disjoint(executed, lost)
      && this !in executed.repr && this !in lost.repr
      && executed.current != null && executed.current.uuid == uuid && executed.curnext >= 0 && lost.current == null
    }

    // The gnos of the own uuid.
    ghost function Executed(): set<int>
      reads this, executed`entries
    {
      At(executed.Map(), uuid)
    }

    ghost function Lost(): set<int>
      reads this, lost`entries
    {
      At(lost.Map(), uuid)
    }

    constructor (uuid: Uuid)
      ensures Valid() && this.uuid == uuid && Ids(executed.Map()) == {} && Ids(lost.Map()) == {}
      ensures executed.curnext == 0
      ensures fresh(executed) && fresh(lost) && (forall o :: o in executed.repr ==> fresh(o)) && fresh(lost.repr)
      ensures fresh(executed.members) && fresh(lost.members)
    {
      hide GtidSet.Valid, GtidSet.Listed, GtidSet.Map, GtidSet.Total, At, Ids;
      var e := new GtidSet();
      var l := new GtidSet();
      Empty(e, uuid);
      Empty(l, uuid);
      Attach(e, l, uuid);
      OwnGnos(e.Map(), uuid);
      this.uuid, executed, lost := uuid, e, l;
    }

    // What the assertion in choosing the next gno amounts to, if the lost gnos of the own uuid were l.
    ghost predicate MayHaveLost(l: set<int>)
      reads this, executed, executed`entries
    {
      MayChoose(executed.curnext, Executed(), l)
    }

    // While the numbering is ahead the assertion holds, and it stays ahead.
    lemma StaysAhead(l: set<int>)
      requires Valid()
      ensures MayHaveLost(l) && (Lost() <= l ==> Ahead(Updated(executed.curnext, Executed(), l), Executed(), l))
    {
      AssertionFails(executed.curnext, Executed(), l);
      UpdatedIsAhead(executed.curnext, Executed(), l);
    }

    // The set replaces the executed one; its own uuid becomes current.
    method ResetExecuted(gtids: GtidSet)
      requires Sound() && gtids.Valid() && gtids.curnext == 0 && Disjoint(gtids, lost) && this !in gtids.repr
      modifies this, gtids, gtids.repr, gtids.members`next, lost, lost.repr, lost.members`next
      ensures Valid() && executed == gtids && lost == old(lost) && uuid == old(uuid)
      ensures executed.curnext == Updated(0, Executed(), Lost())
      ensures executed.curnext == 0 <==> forall g :: g in Lost() ==> Reached(g, Executed())
      ensures executed.curnext != 0 ==> IsNext(executed.curnext, Lost())
      ensures Ids(executed.Map()) == Ids(old(gtids.Map())) && lost.Map() == old(lost.Map())
      ensures forall o :: o in executed.repr ==> o in old(gtids.repr) || fresh(o)
      ensures forall u :: u in executed.members ==> u in old(gtids.members) || fresh(u)
    {
      hide GtidSet.Valid, GtidSet.Listed, GtidSet.Map, GtidSet.Total, Added, At, Ids, Ahead, Updated, Reached, IsNext;
      executed := gtids;
      Attach(gtids, lost, uuid);
      AssertionFails(0, Executed(), Lost());
      UpdatedIsAhead(0, Executed(), Lost());
      ChoiceStays(0, Executed(), Lost());
      NoneIsChosen(Executed(), Lost());
      UpdateNextGno(executed, lost, uuid);
    }

    method ResetLost(gtids: GtidSet)
      requires Valid() && gtids.Valid() && gtids.current == null && Disjoint(executed, gtids) && this !in gtids.repr
      modifies this, executed, executed.repr, gtids, gtids.repr, gtids.members`next
      ensures Valid() && executed == old(executed) && lost == gtids && uuid == old(uuid)
      ensures executed.curnext == Updated(old(executed.curnext), Executed(), Lost())
      ensures executed.curnext == old(executed.curnext) <==>
                forall g :: g in Lost() ==> g < NextGno(old(executed.curnext), Executed())
      ensures executed.curnext != old(executed.curnext) ==> IsNext(executed.curnext, Lost())
      ensures executed.Map() == old(executed.Map()) && lost.Map() == old(gtids.Map())
    {
      hide GtidSet.Valid, GtidSet.Listed, GtidSet.Map, GtidSet.Total, Added, At, Ids, Updated, Reached, IsNext;
      ChoiceStays(executed.curnext, Executed(), At(gtids.Map(), uuid));
      AssertionFails(executed.curnext, Executed(), At(gtids.Map(), uuid));
      UpdatedIsAhead(executed.curnext, Executed(), At(gtids.Map(), uuid));
      lost := gtids;
      UpdateNextGno(executed, lost, uuid);
    }

    lemma MoreLost(delta: GtidSet)
      requires Sound() && delta.Valid()
      ensures var l := Lost() + At(delta.Map(), uuid);
              Valid() ==> MayHaveLost(l) && Ahead(Updated(executed.curnext, Executed(), l), Executed(), l)
    {
      hide *;
      if Valid() { StaysAhead(Lost() + At(delta.Map(), uuid)); }
    }

    // The precondition is the assertion that the code makes; while the numbering is ahead it holds.
    method AddLost(delta: GtidSet)
      requires Sound() && delta.Valid() && Disjoint(executed, delta) && Disjoint(lost, delta) && this !in delta.repr
      requires MayHaveLost(Lost() + At(delta.Map(), uuid))
      modifies lost, lost.repr, lost.members`next, executed, executed.repr
      ensures Sound() && (old(Valid()) ==> Valid())
      ensures executed.Map() == old(executed.Map()) && lost.Map() == Union(old(lost.Map()), old(delta.Map()))
      ensures executed.members == old(executed.members)
      ensures executed.curnext == Updated(old(executed.curnext), Executed(), Lost())
      ensures executed.curnext == old(executed.curnext) <==>
                forall g :: g in Lost() ==> g < NextGno(old(executed.curnext), Executed())
      ensures executed.curnext != old(executed.curnext) ==> IsNext(executed.curnext, Lost())
      ensures forall o :: o in executed.repr ==> o in old(executed.repr) || fresh(o)
      ensures forall o :: o in lost.repr ==> o in old(lost.repr) || fresh(o)
    {
      hide GtidSet.Valid, GtidSet.Listed, GtidSet.Map, GtidSet.Total, Added, At, Ids, Union, Ahead, Updated, MayChoose, IsNext;
      UnionAt(lost.Map(), delta.Map(), uuid);
      ChoiceStays(executed.curnext, Executed(), Lost() + At(delta.Map(), uuid));
      MoreLost(delta);
      lost.Pointers();
      lost.Outside();
      var added := Merge(lost, delta);
      UpdateNextGno(executed, lost, uuid);
    }

    // Adds to the lost set what a peer has and this server lacks; says whether that was anything.
    method AddLostIfAny(delta: GtidSet) returns (updated: bool)
      requires Valid() && delta.Valid() && Disjoint(executed, delta) && Disjoint(lost, delta) && this !in delta.repr
      modifies lost, lost.repr, lost.members`next, executed, executed.repr
      ensures Valid() && executed.Map() == old(executed.Map())
      ensures Ids(lost.Map()) == Ids(old(lost.Map())) + Ids(old(delta.Map()))
      ensures updated <==> Ids(old(delta.Map())) != {}
      ensures executed.curnext == old(executed.curnext) <==>
                forall g :: g in Lost() ==> g < NextGno(old(executed.curnext), Executed())
      ensures executed.curnext != old(executed.curnext) ==> IsNext(executed.curnext, Lost())
      ensures forall o :: o in executed.repr ==> o in old(executed.repr) || fresh(o)
      ensures forall o :: o in lost.repr ==> o in old(lost.repr) || fresh(o)
    {
      hide GtidSet.Valid, GtidSet.Listed, GtidSet.Map, GtidSet.Total, Ids, Ahead, Union, Updated, MayChoose, IsNext;
      AheadIsFresh(executed.curnext, Executed(), Lost());
      assert forall g :: g in Lost() ==> g in Executed() + Lost();
      UnionIds(lost.Map(), delta.Map());
      MayAdd(delta);
      updated := false;
      var n := delta.Count();
      if n != 0 {
        AddLost(delta);
        updated := true;
      }
    }

    lemma MayAdd(delta: GtidSet)
      requires Valid() && delta.Valid()
      ensures MayHaveLost(Lost() + At(delta.Map(), uuid))
    {
      MoreLost(delta);
    }

    method RemoveLost(delta: GtidSet)
      requires Valid() && delta.Valid() && Disjoint(executed, delta) && Disjoint(lost, delta) && this !in delta.repr
      modifies lost, lost.repr, lost.members`next
      ensures Valid() && executed.Map() == old(executed.Map()) && lost.Map() == Difference(old(lost.Map()), old(delta.Map()))
      ensures executed.curnext == old(executed.curnext)
    {
      hide GtidSet.Valid, GtidSet.Listed, GtidSet.Map, GtidSet.Total, Added, At, Ids, Reached, Union, Difference;
      var removed := Diff(lost, delta);
      FewerAt(old(lost.Map()), delta.Map(), uuid);
      AheadOfFewer(executed.curnext, Executed(), old(Lost()), Lost());
    }

    // The gno of a transaction of this server. It exceeds all own gnos, executed or lost, exactly if the numbering
    // is ahead, and leaves it so.
    method Generate() returns (gno: int)
      requires Sound() && executed.curnext < GNO_MAX && forall g :: g in Executed() ==> g + 1 < GNO_MAX
      modifies executed, executed.repr
      ensures Sound() && (old(Valid()) ==> Valid()) && executed.curnext == 0
      ensures gno == old(NextGno(executed.curnext, Executed()))
      ensures old(Valid()) <==> forall g :: g in old(Executed() + Lost()) ==> g < gno
      ensures executed.Map() == Added(old(executed.Map()), uuid, {gno}) && lost.Map() == old(lost.Map())
      ensures Executed() == old(Executed()) + {gno}
      ensures forall o :: o in executed.repr ==> o in old(executed.repr) || fresh(o)
    {
      hide GtidSet.Valid, GtidSet.Listed, GtidSet.Map, GtidSet.Total, Added, At, Ahead, IsNext;
      NextIsPositive(Executed());
      AheadIsFresh(executed.curnext, Executed(), Lost());
      if Ahead(executed.curnext, Executed(), Lost()) {
        GeneratedKeepsAhead(executed.curnext, Executed(), Lost());
      }
      OwnRow(executed.Map(), uuid, NextGno(executed.curnext, Executed()));
      ghost var e := Executed();
      gno := executed.CurrentUuidSetNext(true);
      NextOfIs(gno, e);
    }

    method Contains(id: Id) returns (found: bool)
      requires Sound()
      modifies executed`cached, lost`cached
      ensures Sound() && (old(Valid()) ==> Valid())
      ensures found == (id in Ids(executed.Map()) || id in Ids(lost.Map()))
    {
      hide GtidSet.Valid, GtidSet.Listed, GtidSet.Map, GtidSet.Total, Added, At, Ids, Reached, Union, Difference;
      found := executed.Contains(id.uuid, id.gno);
      if !found {
        found := lost.Contains(id.uuid, id.gno);
      }
    }

    // A replicated transaction: ignored if it is known, or else run, if its command is good, and noted. The
    // assertion that noting it adds something fails exactly if its gno is below 1. One of the own uuid keeps the
    // numbering ahead exactly if no next gno has been chosen, or one beyond it.
    method GtidCommand(id: Id, good: bool) returns (outcome: Outcome)
      requires Sound() && id.gno < GNO_MAX
      modifies executed, executed.repr, executed.members`next, lost`cached
      ensures Sound() && lost.Map() == old(lost.Map()) && executed.curnext == old(executed.curnext)
      ensures outcome == Ignored <==> id in Ids(old(executed.Map())) || id in Ids(old(lost.Map()))
      ensures outcome != Ignored ==>
                outcome == if !good then Rejected else if id.gno < GNO_INITIAL then Aborted else Applied
      ensures Ids(executed.Map()) == Ids(old(executed.Map())) + (if outcome == Applied then {id} else {})
      ensures old(Valid()) ==>
                (Valid() <==> outcome != Applied || id.uuid != uuid || executed.curnext == 0 || id.gno < executed.curnext)
      ensures forall o :: o in executed.repr ==> o in old(executed.repr) || fresh(o)
    {
      hide GtidSet.Valid, GtidSet.Listed, GtidSet.Map, GtidSet.Total, At, Ids, Reached, Ahead;
      var known := Contains(id);
      if known { return Ignored; }
      if !good { return Rejected; }
      outcome := Apply(id);
    }

    method Apply(id: Id) returns (outcome: Outcome)
      requires Sound() && id.gno < GNO_MAX && id !in Ids(executed.Map())
      modifies executed, executed.repr, executed.members`next
      ensures outcome == if id.gno < GNO_INITIAL then Aborted else Applied
      ensures Sound() && executed.curnext == old(executed.curnext)
      ensures Ids(executed.Map()) == Ids(old(executed.Map())) + (if outcome == Applied then {id} else {})
      ensures old(Valid()) ==>
                (Valid() <==> outcome != Applied || id.uuid != uuid || executed.curnext == 0 || id.gno < executed.curnext)
      ensures forall o :: o in executed.repr ==> o in old(executed.repr) || fresh(o)
    {
      hide GtidSet.Valid, GtidSet.Listed, GtidSet.Map, GtidSet.Total, Added, At, Ids, Reached, Ahead;
      executed.TotalIsExact();
      OneGno(executed.Map(), id, uuid);
      if id.gno >= GNO_INITIAL && Ahead(executed.curnext, Executed(), Lost()) {
        OutsideGno(executed.curnext, id.gno, Executed(), Lost());
      }
      var added := executed.Add(id.uuid, id.gno, id.gno);
      executed.TotalIsExact();
      outcome := if added == 0 then Aborted else Applied;
    }
  }

  datatype Outcome = Ignored | Rejected | Applied | Aborted
}
