/** What becomes of the numbering when a server is sent transactions under its own uuid. */
module OwnIds {
  import opened GtidSets
  import opened Intervals
  import opened IntervalEdits
  import opened NextGnos
  import opened Numbering
  import opened Tables
  import opened UuidSets

  // A GTID command with an unknown id of the own uuid, and then a transaction of the server itself. Its number has
  // been used already exactly if the command had the next gno that was chosen, and fails to exceed all that are in
  // use exactly if the command had that or a greater one.
  method CommandThenGenerate(server: Server, g: int) returns (outcome: Outcome, gno: int)
    requires server.Valid() && GNO_INITIAL <= g && g + 1 < GNO_MAX && g !in server.Executed() + server.Lost()
    requires server.executed.curnext < GNO_MAX && forall h :: h in server.Executed() ==> h + 1 < GNO_MAX
    modifies server.executed, server.executed.repr, server.executed.members`next, server.lost`cached
    ensures outcome == Applied && server.executed.curnext == 0
    ensures Ids(server.executed.Map()) == Ids(old(server.executed.Map())) + {Id(server.uuid, g), Id(server.uuid, gno)}
    ensures gno == NextGno(old(server.executed.curnext), old(server.Executed()) + {g})
    ensures gno in old(server.Executed()) + old(server.Lost()) + {g} <==> old(server.executed.curnext) == g
    ensures (forall h :: h in old(server.Executed()) + old(server.Lost()) + {g} ==> h < gno) <==>
              old(server.executed.curnext) == 0 || g < old(server.executed.curnext)
  {
    hide *;
    ghost var c, e, l, was, uuid := server.executed.curnext, server.Executed(), server.Lost(), server.executed.Map(), server.uuid;
    BeforeCommand(server, g);
    outcome := server.GtidCommand(Id(server.uuid, g), true);
    AfterCommand(server, was, g);
    ghost var t := server.executed.Map();
    gno := server.Generate();
    BothTaken(t, Ids(was), uuid, g, gno);
  }

  lemma BothTaken(t: Table, was: set<Id>, uuid: Uuid, g: int, h: int)
    requires Ids(t) == was + {Id(uuid, g)}
    ensures Ids(Added(t, uuid, {h})) == was + {Id(uuid, g), Id(uuid, h)}
  {
    AddedIds(t, uuid, {h});
  }

  // What the command and the generation need ...
  lemma BeforeCommand(server: Server, g: int)
    requires server.Valid() && GNO_INITIAL <= g && g !in server.Executed() + server.Lost()
    ensures server.Executed() == At(server.executed.Map(), server.uuid)
    ensures server.Sound()
    ensures Id(server.uuid, g) !in Ids(server.executed.Map()) && Id(server.uuid, g) !in Ids(server.lost.Map())
    ensures var c, e, l := server.executed.curnext, server.Executed(), server.Lost();
            && (NextGno(c, e + {g}) in e + l + {g} <==> c == g)
            && ((forall h :: h in e + l + {g} ==> h < NextGno(c, e + {g})) <==> c == 0 || g < c)
  {
    var c, e, l := server.executed.curnext, server.Executed(), server.Lost();
    OwnGnos(server.executed.Map(), server.uuid);
    OwnGnos(server.lost.Map(), server.uuid);
    OutsideNumbers(c, g, e, l);
  }

  lemma OutsideNumbers(c: int, g: int, e: set<int>, l: set<int>)
    requires Ahead(c, e, l) && c >= 0 && g >= GNO_INITIAL
    ensures NextGno(c, e + {g}) in e + l + {g} <==> c == g
    ensures (forall h :: h in e + l + {g} ==> h < NextGno(c, e + {g})) <==> c == 0 || g < c
  {
    OutsideGnoRepeats(c, g, e, l);
    OutsideGno(c, g, e, l);
    AheadIsFresh(c, e + {g}, l);
    assert (e + {g}) + l == (e + l) + {g};
  }

  // ... and what the command leaves.
  lemma AfterCommand(server: Server, was: Table, g: int)
    requires Ids(server.executed.Map()) == Ids(was) + {Id(server.uuid, g)}
    ensures server.Executed() == At(was, server.uuid) + {g}
  {
    var t, uuid := server.executed.Map(), server.uuid;
    OwnGnos(t, uuid);
    OwnGnos(was, uuid);
    forall h
      ensures h in At(t, uuid) <==> h in At(was, uuid) + {g}
    {
      assert Id(uuid, h) in Ids(t) <==> Id(uuid, h) in Ids(was) || h == g;
    }
  }

  // While no gno has been chosen, an own id from outside is never given out again: whatever the server generates
  // afterwards lies beyond it and is new.
  method CommandThenMany(server: Server, g: int, n: nat) returns (gnos: seq<int>)
    requires server.Valid() && server.executed.curnext == 0
    requires GNO_INITIAL <= g && g !in server.Executed() + server.Lost() && g + n + 1 < GNO_MAX
    requires forall h :: h in server.Executed() ==> h + n + 1 < GNO_MAX
    modifies server.executed, server.executed.repr, server.executed.members`next, server.lost`cached
    ensures server.Valid() && server.executed.curnext == 0 && |gnos| == n
    ensures forall i :: 0 <= i < n ==> g < gnos[i] && gnos[i] !in old(server.Executed()) + old(server.Lost())
    ensures forall i, j :: 0 <= i < j < n ==> gnos[i] < gnos[j]
  {
    hide GtidSet.Valid, GtidSet.Listed, GtidSet.Map, GtidSet.Total, At, Ids, Ahead, NextGno;
    ghost var was, e := server.executed.Map(), server.Executed();
    BeforeCommand(server, g);
    var outcome := server.GtidCommand(Id(server.uuid, g), true);
    AfterCommand(server, was, g);
    assert g in server.Executed() + server.Lost();
    assert forall h :: h in e + server.Lost() ==> h in server.Executed() + server.Lost();
    gnos := GenerateMany(server, n);
    forall i | 0 <= i < n
      ensures gnos[i] !in e + server.Lost()
    {
      BeyondAll(gnos[i], e + server.Lost());
    }
  }

  lemma BeyondAll(g: int, s: set<int>)
    requires forall h :: h in s ==> h < g
    ensures g !in s
  {
  }

  method GenerateMany(server: Server, n: nat) returns (gnos: seq<int>)
    requires server.Valid() && server.executed.curnext == 0 && n + 1 < GNO_MAX
    requires forall h :: h in server.Executed() ==> h + n + 1 < GNO_MAX
    modifies server.executed, server.executed.repr
    ensures server.Valid() && server.executed.curnext == 0 && |gnos| == n
    ensures forall i, h :: 0 <= i < n && h in old(server.Executed()) + old(server.Lost()) ==> h < gnos[i]
    ensures forall i, j :: 0 <= i < j < n ==> gnos[i] < gnos[j]
  {
    hide GtidSet.Valid, GtidSet.Listed, GtidSet.Map, GtidSet.Total, At, Ids, Ahead, NextGno;
    gnos := [];
    while |gnos| < n
      invariant server.Valid() && server.executed.curnext == 0 && |gnos| <= n
      invariant forall o :: o in server.executed.repr ==> o in old(server.executed.repr) || fresh(o)
      invariant forall h :: h in server.Executed() ==> h + (n - |gnos|) + 1 < GNO_MAX
      invariant old(server.Executed()) <= server.Executed() && server.Lost() == old(server.Lost())
      invariant forall i :: 0 <= i < |gnos| ==> gnos[i] in server.Executed()
      invariant forall i, h :: 0 <= i < |gnos| && h in old(server.Executed()) + old(server.Lost()) ==> h < gnos[i]
      invariant forall i, j :: 0 <= i < j < |gnos| ==> gnos[i] < gnos[j]
    {
      GeneratedFits(server, n - |gnos|);
      ghost var known := server.Executed() + server.Lost();
      var gno := server.Generate();
      assert forall h :: h in known ==> h < gno;
      assert forall i :: 0 <= i < |gnos| ==> gnos[i] in known;
      assert forall h :: h in old(server.Executed()) + old(server.Lost()) ==> h in known;
      gnos := gnos + [gno];
    }
  }

  lemma GeneratedFits(server: Server, k: nat)
    requires server.Valid() && server.executed.curnext == 0 && 0 < k && k + 1 < GNO_MAX
    requires forall h :: h in server.Executed() ==> h + k + 1 < GNO_MAX
    ensures server.Sound() && server.executed.curnext < GNO_MAX
    ensures forall h :: h in server.Executed() ==> h + 1 < GNO_MAX
    ensures forall h :: h in server.Executed() + {NextGno(0, server.Executed())} ==> h + (k - 1) + 1 < GNO_MAX
  {
    var n := NextGno(0, server.Executed());
    assert n == GNO_INITIAL || n - 1 in server.Executed();
  }

  // A server that has lost its numbers 1 to 4; so 5 is chosen.
  method LosesFour() returns (server: Server)
    ensures fresh(server) && server.Valid() && server.uuid == "A" && server.executed.curnext == 5
    ensures Ids(server.executed.Map()) == {} && server.Executed() == {} && server.Lost() == {1, 2, 3, 4}
    ensures fresh(server.executed) && fresh(server.lost) && fresh(server.executed.repr) && fresh(server.executed.members)
  {
    hide GtidSet.Valid, GtidSet.Listed, GtidSet.Map, GtidSet.Total, At, Ids, Ahead, Updated, MayChoose, Added, Union;
    server := new Server("A");
    var delta := OneToFour();
    NoGnos(server.executed.Map(), server.lost.Map());
    server.MayAdd(delta);
    server.AddLost(delta);
    NextIsFive();
  }

  method OneToFour() returns (delta: GtidSet)
    ensures delta.Valid() && fresh(delta) && fresh(delta.repr) && fresh(delta.members)
    ensures delta.Map() == Added(map[], "A", Given(1, 4)) && delta.curnext == 0
  {
    hide GtidSet.Valid, GtidSet.Listed, GtidSet.Map, GtidSet.Total, Added, Given, ToTable;
    delta := new GtidSet();
    NoRows(delta);
    var added := delta.Add("A", 1, 4);
  }

  lemma NoRows(s: GtidSet)
    requires s.entries == []
    ensures s.Map() == map[]
  {
  }

  lemma NoGnos(executed: Table, lost: Table)
    requires Ids(executed) == {} && Ids(lost) == {}
    ensures At(executed, "A") == {}
    ensures At(Union(lost, Added(map[], "A", Given(1, 4))), "A") == {1, 2, 3, 4}
  {
    EmptyAt(executed, "A");
    EmptyAt(lost, "A");
    UnionAt(lost, Added(map[], "A", Given(1, 4)), "A");
    AddedAt(map[], "A", Given(1, 4), "A");
    assert At(map[], "A") == {};
    GivenFour();
    hide *;
    assert {} + ({} + {1, 2, 3, 4}) == {1, 2, 3, 4};
  }

  lemma EmptyAt(t: Table, uuid: Uuid)
    requires Ids(t) == {}
    ensures At(t, uuid) == {}
  {
    OwnGnos(t, uuid);
    assert forall g :: g !in At(t, uuid);
  }

  lemma GivenFour()
    ensures Given(1, 4) == {1, 2, 3, 4}
  {
  }

  lemma NextIsFive()
    ensures Updated(0, {}, {1, 2, 3, 4}) == 5
  {
    assert 4 in {1, 2, 3, 4};
  }

  // Then the command A:5 arrives, and the server calls its own transaction A:5 too.
  method GivenOutTwice() returns (server: Server, gno: int)
    ensures gno == 5 && Ids(server.executed.Map()) == {Id("A", 5)}
  {
    hide GtidSet.Valid, GtidSet.Listed, GtidSet.Map, GtidSet.Total, At, Ids, Ahead;
    server := LosesFour();
    var outcome;
    outcome, gno := CommandThenGenerate(server, 5);
  }

  // The command A:9 arrives instead. Then A:5 and A:6 cannot be counted as lost: the next gno would have to be
  // chosen anew, for they are past 5, and the code asserts that no executed gno is past that choice.
  method CannotLoseMore() returns (server: Server)
    ensures server.Sound() && server.executed.curnext == 5 && server.Executed() == {9} && server.Lost() == {1, 2, 3, 4}
    ensures !server.MayHaveLost({1, 2, 3, 4} + {5, 6})
  {
    hide GtidSet.Valid, GtidSet.Listed, GtidSet.Map, GtidSet.Total, At, Ids, Ahead;
    server := LosesFour();
    ghost var was := server.executed.Map();
    OwnGnos(server.lost.Map(), "A");
    var outcome := server.GtidCommand(Id("A", 9), true);
    AfterCommand(server, was, 9);
    EmptyAt(was, "A");
    NinePastSeven();
  }

  lemma NinePastSeven()
    ensures {} + {9} == {9} && !MayChoose(5, {9}, {1, 2, 3, 4} + {5, 6})
  {
    assert 9 in {9} && 6 in {1, 2, 3, 4} + {5, 6};
    AssertionFails(5, {9}, {1, 2, 3, 4} + {5, 6});
  }

  // A server that takes over A:1 to A:4 as executed, with nothing lost: no next gno is chosen. So when A:5 arrives, its
  // own transaction is A:6.
  method TakesFour() returns (server: Server, gno: int)
    ensures gno == 6 && server.executed.curnext == 0 && server.Executed() == {1, 2, 3, 4, 5, 6}
  {
    hide GtidSet.Valid, GtidSet.Listed, GtidSet.Map, GtidSet.Total, At, Ids, Ahead, Added, NextGno;
    server := new Server("A");
    EmptyAt(server.lost.Map(), "A");
    var four := OneToFour();
    FourGnos();
    server.ResetExecuted(four);
    SameGnos(server.executed.Map(), Added(map[], "A", Given(1, 4)), "A");
    ghost var was := server.executed.Map();
    var outcome;
    outcome, gno := CommandThenGenerate(server, 5);
    SixIsNext();
    SixGnos(server.executed.Map(), was);
  }

  lemma FourGnos()
    ensures At(Added(map[], "A", Given(1, 4)), "A") == {1, 2, 3, 4}
  {
    GivenFour();
  }

  lemma SameGnos(t: Table, u: Table, uuid: Uuid)
    requires Ids(t) == Ids(u)
    ensures At(t, uuid) == At(u, uuid)
  {
    OwnGnos(t, uuid);
    OwnGnos(u, uuid);
    hide Ids, At;
    forall g
      ensures g in At(t, uuid) <==> g in At(u, uuid)
    {
      assert g in At(t, uuid) <==> Id(uuid, g) in Ids(t);
      assert g in At(u, uuid) <==> Id(uuid, g) in Ids(u);
    }
  }

  lemma SixIsNext()
    ensures NextGno(0, {1, 2, 3, 4} + {5}) == 6
  {
    assert IsNext(6, {1, 2, 3, 4} + {5});
    NextOfIs(6, {1, 2, 3, 4} + {5});
  }

  lemma SixGnos(t: Table, was: Table)
    requires At(was, "A") == {1, 2, 3, 4} && Ids(t) == Ids(was) + {Id("A", 5), Id("A", 6)}
    ensures At(t, "A") == {1, 2, 3, 4, 5, 6}
  {
    OwnGnos(t, "A");
    OwnGnos(was, "A");
    forall g
      ensures g in At(t, "A") <==> g in At(was, "A") + {5, 6}
    {
      assert g in At(t, "A") <==> Id("A", g) in Ids(t);
      assert Id("A", g) in Ids(was) <==> g in At(was, "A");
    }
    assert At(t, "A") == At(was, "A") + {5, 6};
  }
}
