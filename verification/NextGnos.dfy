/** Which number a server gives to its next transaction, from its executed and lost gnos of the own uuid. */
module NextGnos {
  import opened Intervals
  import opened IntervalEdits
  import Tables

  lemma {:induction false} NextExists(e: set<int>)
    ensures exists n :: IsNext(n, e)
  {
    if e == {} {
      assert IsNext(GNO_INITIAL, e);
    } else {
      var x := Tables.Pick(e);
      NextExists(e - {x});
      var n :| IsNext(n, e - {x});
      assert forall g :: g in e ==> g == x || g in e - {x};
      assert IsNext(if n <= x then x + 1 else n, e);
    }
  }

  // The number after the last one.
  ghost function NextOf(e: set<int>): (n: int)
    ensures IsNext(n, e)
  {
    NextExists(e);
    var n :| IsNext(n, e);
    n
  }

  // The next gno: the one that was chosen in advance, if curnext is not 0, or the one after the last.
  ghost function NextGno(curnext: int, e: set<int>): int {
    if curnext == 0 then NextOf(e) else curnext
  }

  // A next gno that was chosen in advance, or 0, is past all gnos of e.
  ghost predicate Started(curnext: int, e: set<int>) {
    curnext == 0 || (curnext >= GNO_INITIAL && forall g :: g in e ==> g < curnext)
  }

  // A gno of e is at least g.
  ghost predicate Reached(g: int, e: set<int>) {
    g < GNO_INITIAL || exists h :: h in e && g <= h
  }

  // The next gno is past all gnos of e and l: either it was chosen so, or it follows the last one of e.
  ghost predicate Ahead(curnext: int, e: set<int>, l: set<int>) {
    && Started(curnext, e)
    && forall g :: g in l ==> if curnext == 0 then Reached(g, e) else g < curnext
  }

  // The numbering is ahead exactly when the next gno exceeds every gno that is executed or lost.
  lemma AheadIsFresh(curnext: int, e: set<int>, l: set<int>)
    requires curnext >= 0
    ensures Ahead(curnext, e, l) <==> forall g :: g in e + l ==> g < NextGno(curnext, e)
  {
    var n := NextGno(curnext, e);
    if forall g :: g in e + l ==> g < n {
      assert forall g :: g in e ==> g in e + l;
      forall g | g in l
        ensures if curnext == 0 then Reached(g, e) else g < curnext
      {
        assert g in e + l;
        assert curnext == 0 && g >= GNO_INITIAL ==> n - 1 in e && g <= n - 1;
      }
    }
  }

  // Taking the next gno leaves the numbering ahead.
  lemma GeneratedKeepsAhead(curnext: int, e: set<int>, l: set<int>)
    requires Ahead(curnext, e, l)
    ensures Ahead(0, e + {NextGno(curnext, e)}, l) && NextGno(curnext, e) >= GNO_INITIAL
  {
    var n := NextGno(curnext, e);
    forall g | g in l
      ensures Reached(g, e + {n})
    {
      assert forall h :: h in e ==> h in e + {n};
      assert n in e + {n};
    }
  }

  // ----- After the lost set has grown ---------------------------------------------------------------------

  // The next gno is chosen anew if the lost gnos have gone past it.
  ghost function Updated(curnext: int, e: set<int>, l: set<int>): int {
    if NextGno(curnext, e) < NextOf(l) then NextOf(l) else curnext
  }

  // Nothing is chosen anew exactly if no lost gno has reached the next one. What is chosen follows the last lost one.
  lemma ChoiceStays(curnext: int, e: set<int>, l: set<int>)
    requires curnext >= 0
    ensures Updated(curnext, e, l) == curnext <==> forall g :: g in l ==> g < NextGno(curnext, e)
    ensures Updated(curnext, e, l) != curnext ==> IsNext(Updated(curnext, e, l), l)
  {
    var n := NextOf(l);
    if NextGno(curnext, e) < n {
      assert n - 1 in l;
    }
  }

  // If none was chosen before, none is exactly if no lost gno lies beyond the executed ones.
  lemma NoneIsChosen(e: set<int>, l: set<int>)
    ensures Updated(0, e, l) == 0 <==> forall g :: g in l ==> Reached(g, e)
  {
    ChoiceStays(0, e, l);
    var n := NextOf(e);
    forall g
      ensures g < n <==> Reached(g, e)
    {
      assert g >= GNO_INITIAL && g < n ==> n - 1 in e && g <= n - 1;
    }
  }

  // What the code asserts when it chooses: no executed gno has gone past the choice.
  ghost predicate MayChoose(curnext: int, e: set<int>, l: set<int>) {
    NextGno(curnext, e) < NextOf(l) ==> NextOf(e) <= NextOf(l)
  }

  // The assertion fails exactly if the lost gnos have gone past an earlier choice, and the executed ones past both.
  lemma AssertionFails(curnext: int, e: set<int>, l: set<int>)
    ensures !MayChoose(curnext, e, l) <==> curnext != 0 && curnext < NextOf(l) < NextOf(e)
    ensures Started(curnext, e) ==> MayChoose(curnext, e, l)
  {
    assert NextOf(e) == GNO_INITIAL || NextOf(e) - 1 in e;
  }

  lemma UpdatedIsAhead(curnext: int, e: set<int>, l: set<int>)
    requires MayChoose(curnext, e, l)
    requires Started(curnext, e) || NextGno(curnext, e) < NextOf(l)
    ensures Ahead(Updated(curnext, e, l), e, l)
  {
    if NextOf(l) <= NextGno(curnext, e) && curnext == 0 {
      forall g | g in l
        ensures Reached(g, e)
      {
        assert g >= GNO_INITIAL ==> g <= NextOf(e) - 1 && NextOf(e) - 1 in e;
      }
    }
  }

  lemma AheadOfFewer(curnext: int, e: set<int>, l: set<int>, k: set<int>)
    requires Ahead(curnext, e, l) && k <= l
    ensures Ahead(curnext, e, k)
  {
    hide Reached;
  }

  // ----- A gno of the own uuid from outside ---------------------------------------------------------------

  // It keeps the numbering ahead exactly if no next gno has been chosen, or one beyond it.
  lemma OutsideGno(curnext: int, gno: int, e: set<int>, l: set<int>)
    requires Ahead(curnext, e, l)
    ensures Ahead(curnext, e + {gno}, l) <==> curnext == 0 || gno < curnext
  {
    if curnext == 0 {
      forall g | g in l
        ensures Reached(g, e + {gno})
      {
        assert forall h :: h in e ==> h in e + {gno};
      }
    } else {
      assert gno in e + {gno};
    }
  }

  // The next gno then repeats a number exactly if the gno is the one that had been chosen.
  lemma OutsideGnoRepeats(curnext: int, gno: int, e: set<int>, l: set<int>)
    requires Ahead(curnext, e, l) && curnext >= 0
    ensures NextGno(curnext, e + {gno}) in (e + {gno}) + l <==> curnext != 0 && gno == curnext
  {
    var f := e + {gno};
    if curnext == 0 {
      assert gno in f && forall g :: g in e ==> g in f;
      forall g | g in l
        ensures g < NextOf(f)
      {
        assert Reached(g, e);
      }
    } else {
      assert forall g :: g in e ==> g < curnext;
      assert forall g :: g in l ==> g < curnext;
    }
  }
}
