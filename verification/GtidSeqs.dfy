/** The sequence index: a doubly linked list of segments that stands for a log, and a list of spare segments. */
module GtidSeqs {
  import opened Intervals
  import opened IntervalEdits
  import opened Segments
  import opened SeqLogs
  import opened SeqQueries
  import opened Tables
  import Seqs

  class GtidSeq {
    var nsegment: nat
    var nfreeseg: nat
    var nsegmentDeltas: nat
    var nfreesegDeltas: nat
    var firstseg: Segment?
    var lastseg: Segment?
    var freeseg: Segment?

    ghost var segs: seq<Segment>    // in use, oldest first
    ghost var blocks: seq<Block>    // what they hold
    ghost var room: seq<nat>        // the lengths of their arrays
    ghost var frees: seq<Segment>   // spare
    ghost var spareRoom: seq<nat>
    ghost var members: set<Segment>
    ghost var arrays: set<object>
    ghost var peak: nat             // most segments ever in use at once

    // Everything but the order of the blocks.
    ghost predicate Shape()
      reads this, members, arrays
    {
      && this !in arrays && (forall s :: s in members ==> s !in arrays)
      && AllApart(segs + frees, members)
      && Chain(segs, firstseg, lastseg, members) && FreeChain(frees, freeseg, members)
      && Live(segs, blocks, room, members, arrays) && Spare(frees, spareRoom, members, arrays)
      && nsegment == |segs| && nfreeseg == |frees|
      && nsegmentDeltas == Sum(room) && nfreesegDeltas == Sum(spareRoom)
    }

    ghost predicate Valid()
      reads this, members, arrays
    {
      Shape() && GoodBlocks(blocks) && |segs| + |frees| <= peak
    }

    constructor ()
      ensures Valid() && blocks == [] && members == {} && arrays == {}
    {
      nsegment, nfreeseg, nsegmentDeltas, nfreesegDeltas := 0, 0, 0, 0;
      firstseg, lastseg, freeseg := null, null, null;
      segs, blocks, room, frees, spareRoom := [], [], [], [], [];
      members, arrays, peak := {}, {}, 0;
    }

    // The parts of Shape, one by one ...
    lemma Open()
      requires Shape()
      ensures this !in arrays && (forall s :: s in members ==> s !in arrays)
      ensures AllApart(segs + frees, members) && Lists(segs, firstseg, lastseg, frees, freeseg, members)
      ensures Live(segs, blocks, room, members, arrays) && Spare(frees, spareRoom, members, arrays)
      ensures nsegment == |segs| == |blocks| == |room| && nfreeseg == |frees| == |spareRoom|
      ensures nsegmentDeltas == Sum(room) && nfreesegDeltas == Sum(spareRoom)
    {
    }

    // ... and together again.
    lemma Close()
      requires this !in arrays && (forall s :: s in members ==> s !in arrays)
      requires AllApart(segs + frees, members) && Lists(segs, firstseg, lastseg, frees, freeseg, members)
      requires Live(segs, blocks, room, members, arrays) && Spare(frees, spareRoom, members, arrays)
      requires nsegment == |segs| && nfreeseg == |frees|
      requires nsegmentDeltas == Sum(room) && nfreesegDeltas == Sum(spareRoom)
      ensures Shape()
    {
    }

    ghost predicate Outside(x: Segment)
      reads this, members`deltas, x`deltas, x`next
    {
      x.next == null && Detached(x, segs + frees, members, arrays)
    }

    // Put a segment that holds b at the end.
    method Occupy(x: Segment, ghost b: Block)
      requires Shape() && Outside(x) && x.Is(b)
      modifies this, members`prev, members`next
      ensures Shape() && segs == old(segs) + [x] && blocks == old(blocks) + [b] && lastseg == x
      ensures frees == old(frees) && members == old(members) && arrays == old(arrays) && peak == old(peak)
    {
      ghost var s, bs, rs := segs + [x], blocks + [b], room + [x.deltas.Length];
      Detail(x);
      hide *;
      Open();
      Reattach(x, segs, frees, members, arrays);
      LiveAppend(segs, blocks, room, members, arrays, x, b);
      SumAppend(room, x.deltas.Length);
      LinkLast(x, firstseg, lastseg, segs, s, frees, freeseg, members);
      Extend(x, s, bs, rs);
    }

    lemma Detail(x: Segment)
      requires Shape() && Outside(x)
      ensures x.next == null && Detached(x, segs + frees, members, arrays) && x in members && x.deltas in arrays
      ensures forall i :: 0 <= i < |segs + frees| ==> (segs + frees)[i] != x
      ensures Just(lastseg) <= members
    {
    }

    method Extend(x: Segment, ghost s: seq<Segment>, ghost bs: seq<Block>, ghost rs: seq<nat>)
      requires this !in arrays && (forall y :: y in members ==> y !in arrays)
      requires AllApart(s + frees, members)
      requires Lists(s, if firstseg == null then x else firstseg, x, frees, freeseg, members)
      requires Live(s, bs, rs, members, arrays) && Spare(frees, spareRoom, members, arrays)
      requires nsegment + 1 == |s| && nfreeseg == |frees|
      requires nsegmentDeltas + x.deltas.Length == Sum(rs) && nfreesegDeltas == Sum(spareRoom)
      modifies this
      ensures Shape() && segs == s && blocks == bs && room == rs && lastseg == x
      ensures frees == old(frees) && members == old(members) && arrays == old(arrays) && peak == old(peak)
    {
      hide *;
      if firstseg == null { firstseg := x; }
      lastseg := x;
      nsegment := nsegment + 1;
      nsegmentDeltas := nsegmentDeltas + x.deltas.Length;
      segs, blocks, room := s, bs, rs;
      Close();
    }

    // Get a segment from the list of spare ones.
    method TakeFree() returns (x: Segment)
      requires Shape() && freeseg != null
      modifies this, members`next
      ensures Shape() && Outside(x) && x.deltas.Length > 0 && x in members
      ensures segs == old(segs) && blocks == old(blocks) && frees == old(frees[1..]) && old(frees) != []
      ensures members == old(members) && arrays == old(arrays) && peak == old(peak)
    {
      hide *;
      Open();
      FreeHead();
      x := freeseg;
      DetachFree(segs, frees, members, arrays);
      SpareRest(frees, spareRoom, members, arrays);
      SumFirst(spareRoom);
      var rest := UnlinkFree(x, segs, firstseg, lastseg, frees, freeseg, members);
      Unspare(x, rest);
    }

    lemma FreeHead()
      requires Shape()
      ensures (freeseg == null) <==> (frees == [])
      ensures freeseg != null ==> freeseg == frees[0] && freeseg in members && spareRoom != []
    {
    }

    method Unspare(x: Segment, rest: Segment?)
      requires this !in arrays && (forall y :: y in members ==> y !in arrays) && frees != [] && spareRoom != []
      requires AllApart(segs + frees[1..], members) && Detached(x, segs + frees[1..], members, arrays) && x.next == null
      requires Lists(segs, firstseg, lastseg, frees[1..], rest, members)
      requires Live(segs, blocks, room, members, arrays) && Spare(frees[1..], spareRoom[1..], members, arrays)
      requires nsegment == |segs| && nfreeseg == |frees| && x.deltas.Length == spareRoom[0]
      requires nsegmentDeltas == Sum(room) && nfreesegDeltas == spareRoom[0] + Sum(spareRoom[1..])
      modifies this
      ensures Shape() && Outside(x)
      ensures segs == old(segs) && blocks == old(blocks) && frees == old(frees[1..])
      ensures members == old(members) && arrays == old(arrays) && peak == old(peak)
    {
      hide *;
      freeseg := rest;
      nfreeseg := nfreeseg - 1;
      nfreesegDeltas := nfreesegDeltas - x.deltas.Length;
      frees, spareRoom := frees[1..], spareRoom[1..];
      Close();
      IsOutside(x);
    }

    lemma IsOutside(x: Segment)
      requires x.next == null && Detached(x, segs + frees, members, arrays)
      ensures Outside(x)
    {
    }

    // Allocate a segment.
    method MakeNew() returns (x: Segment)
      requires Shape()
      modifies this`members, this`arrays
      ensures Shape() && Outside(x) && x.deltas.Length > 0 && x in members && fresh(x) && fresh(x.deltas)
      ensures members == old(members) + {x} && arrays == old(arrays) + {x.deltas}
    {
      hide *;
      InArrays();
      x := new Segment();
      Positive(x);
      Adopt(x);
    }

    ghost method Adopt(x: Segment)
      requires Shape() && x.next == null && x !in members && x.deltas !in arrays && x.deltas.Length > 0
      requires this !in arrays && x !in arrays
      requires forall i :: 0 <= i < |segs + frees| ==> (segs + frees)[i].deltas in arrays
      modifies this`members, this`arrays
      ensures Shape() && Outside(x) && members == old(members) + {x} && arrays == old(arrays) + {x.deltas}
    {
      hide *;
      Open();
      Wider(segs + frees, segs, blocks, room, frees, spareRoom, members, arrays, x);
      WiderLists(segs, firstseg, lastseg, frees, freeseg, members, x);
      members, arrays := members + {x}, arrays + {x.deltas};
      Close();
      IsOutside(x);
    }

    lemma Positive(x: Segment)
      requires x.deltas.Length == NGNO_DEFAULT
      ensures x.deltas.Length > 0
    {
    }

    lemma InArrays()
      requires Shape()
      ensures this !in arrays && forall i :: 0 <= i < |segs + frees| ==> (segs + frees)[i].deltas in arrays
    {
      assert forall i :: 0 <= i < |segs + frees| ==> (segs + frees)[i] == if i < |segs| then segs[i] else frees[i - |segs|];
    }

    // Take the first segment out of use.
    method Vacate() returns (x: Segment)
      requires Shape() && segs != []
      modifies this, members`prev
      ensures Shape() && x == old(segs[0]) && x in members && Detached(x, segs + frees, members, arrays)
      ensures segs == old(segs[1..]) && blocks == old(blocks[1..]) && frees == old(frees)
      ensures members == old(members) && arrays == old(arrays) && peak == old(peak)
    {
      hide *;
      Open();
      FirstHead();
      x := firstseg;
      DetachFirst(segs, frees, members, arrays);
      LiveRest(segs, blocks, room, members, arrays);
      SumFirst(room);
      UnlinkFirst(x, firstseg, lastseg, segs, frees, freeseg, members);
      Shorten(x);
    }

    lemma FirstHead()
      requires Shape()
      ensures (firstseg == null) <==> (segs == [])
      ensures segs != [] ==> firstseg == segs[0] && segs[0] in members && Just(segs[0].next) <= members
      ensures segs != [] ==> segs[0].deltas in arrays && segs[0].deltas.Length > 0 && blocks != [] && room != []
    {
      if segs != [] {
        assert Link(segs, 0) && segs[0].Is(blocks[0]);
      }
    }

    method Shorten(x: Segment)
      requires this !in arrays && (forall y :: y in members ==> y !in arrays) && segs != [] && room != [] && blocks != []
      requires AllApart(segs[1..] + frees, members) && Detached(x, segs[1..] + frees, members, arrays)
      requires Lists(segs[1..], x.next, if x.next == null then null else lastseg, frees, freeseg, members)
      requires Live(segs[1..], blocks[1..], room[1..], members, arrays) && Spare(frees, spareRoom, members, arrays)
      requires nsegment == |segs| && nfreeseg == |frees| && x.deltas.Length == room[0]
      requires nsegmentDeltas == room[0] + Sum(room[1..]) && nfreesegDeltas == Sum(spareRoom)
      modifies this
      ensures Shape() && Detached(x, segs + frees, members, arrays)
      ensures segs == old(segs[1..]) && blocks == old(blocks[1..]) && frees == old(frees)
      ensures members == old(members) && arrays == old(arrays) && peak == old(peak)
    {
      hide *;
      nsegment := nsegment - 1;
      nsegmentDeltas := nsegmentDeltas - x.deltas.Length;
      firstseg := x.next;
      if firstseg == null { lastseg := null; }
      segs, blocks, room := segs[1..], blocks[1..], room[1..];
      Close();
    }

    // Keep a segment for later.
    method Keep(x: Segment)
      requires Shape() && Detached(x, segs + frees, members, arrays)
      modifies this, x`next, x`prev
      ensures Shape() && segs == old(segs) && blocks == old(blocks) && frees == [x] + old(frees)
      ensures members == old(members) && arrays == old(arrays) && peak == old(peak)
    {
      hide *;
      Open();
      DetachedMeans(x);
      Reattach(x, segs, frees, members, arrays);
      SpareCons(frees, spareRoom, members, arrays, x);
      SumCons(x.deltas.Length, spareRoom);
      LinkFree(x, segs, firstseg, lastseg, frees, freeseg, members);
      Respare(x, [x] + frees, [x.deltas.Length] + spareRoom);
    }

    lemma DetachedMeans(x: Segment)
      requires Detached(x, segs + frees, members, arrays)
      ensures x in members && x.deltas in arrays && x.deltas.Length > 0
      ensures forall i :: 0 <= i < |segs + frees| ==> (segs + frees)[i] != x
    {
    }

    method Respare(x: Segment, ghost f: seq<Segment>, ghost fr: seq<nat>)
      requires this !in arrays && (forall y :: y in members ==> y !in arrays)
      requires AllApart(segs + f, members) && Lists(segs, firstseg, lastseg, f, x, members)
      requires Live(segs, blocks, room, members, arrays) && Spare(f, fr, members, arrays)
      requires nsegment == |segs| && nfreeseg + 1 == |f|
      requires nsegmentDeltas == Sum(room) && nfreesegDeltas + x.deltas.Length == Sum(fr)
      modifies this
      ensures Shape() && segs == old(segs) && blocks == old(blocks) && frees == f
      ensures members == old(members) && arrays == old(arrays) && peak == old(peak)
    {
      hide *;
      freeseg := x;
      nfreeseg := nfreeseg + 1;
      nfreesegDeltas := nfreesegDeltas + x.deltas.Length;
      frees, spareRoom := f, fr;
      Close();
    }

    // ----- Append ---------------------------------------------------------------------------------------

    method Obtain() returns (x: Segment)
      requires Shape()
      modifies this, members`next
      ensures Shape() && Outside(x) && x.deltas.Length > 0 && x in members
      ensures segs == old(segs) && blocks == old(blocks) && peak == old(peak)
      ensures if old(frees) == [] then frees == [] else frees == old(frees[1..])
      ensures forall s :: s in members ==> s in old(members) || fresh(s)
      ensures forall o :: o in arrays ==> o in old(arrays) || fresh(o)
    {
      hide *;
      FreeHead();
      if freeseg != null {
        x := TakeFree();
      } else {
        x := MakeNew();
      }
    }

    method Prepare(x: Segment, uuid: Uuid, gno: int, offset: int)
      requires Shape() && Outside(x) && x.deltas.Length > 0 && x in members
      modifies x`uuid, x`baseOffset, x`baseGno, x`tgno, x`ngno
      ensures Shape() && Outside(x) && x.Is(Block(uuid, gno, offset, [], 0))
    {
      Open();
      Detail(x);
      NotInUse(x);
      hide *;
      x.Reset(uuid, gno, offset);
      Close();
      IsOutside(x);
    }

    lemma NotInUse(x: Segment)
      requires forall i :: 0 <= i < |segs + frees| ==> (segs + frees)[i] != x
      ensures forall i :: 0 <= i < |segs| ==> segs[i] != x
    {
      assert forall i :: 0 <= i < |segs| ==> (segs + frees)[i] == segs[i];
    }

    // Start a new segment at the end.
    method Switch(uuid: Uuid, gno: int, offset: int) returns (x: Segment)
      requires Shape()
      modifies this, members
      ensures Shape() && segs == old(segs) + [x] && lastseg == x && peak == old(peak)
      ensures blocks == old(blocks) + [Block(uuid, gno, offset, [], 0)]
      ensures |segs| == old(|segs|) + 1 && |frees| == (if old(|frees|) == 0 then 0 else old(|frees|) - 1)
      ensures forall s :: s in members ==> s in old(members) || fresh(s)
      ensures forall o :: o in arrays ==> o in old(arrays) || fresh(o)
    {
      hide *;
      x := Obtain();
      Prepare(x, uuid, gno, offset);
      Occupy(x, Block(uuid, gno, offset, [], 0));
    }

    // Append to the last segment.
    method AppendLast(x: Segment, offset: int)
      requires Shape() && segs != [] && x == lastseg && LastFits(blocks, offset)
      modifies this`nsegmentDeltas, this`blocks, this`room, this`arrays, members`ngno, members`deltas, arrays
      ensures Shape() && LastExtended(old(blocks), blocks, offset) && segs == old(segs) && frees == old(frees)
      ensures forall o :: o in arrays ==> o in old(arrays) || fresh(o)
    {
      hide *;
      Open();
      ghost var ds := LastHead();
      FitsLast(offset);
      ghost var k := |segs| - 1;
      ghost var b := blocks[k];
      var previous := x.deltas.Length;
      x.Append(offset, b);
      Replaced(segs, blocks, room, frees, spareRoom, members, arrays, k, Extended(b, offset), ds);
      SumUpdate(room, k, x.deltas.Length);
      nsegmentDeltas := nsegmentDeltas + x.deltas.Length - previous;
      IsExtended(blocks, k, offset);
      Refill(blocks[k := Extended(b, offset)], room[k := x.deltas.Length], arrays + {x.deltas});
    }

    lemma FitsLast(offset: int)
      requires LastFits(blocks, offset)
      ensures blocks != [] && 0 <= offset - blocks[|blocks| - 1].baseOffset <= SEGOFF_MAX
    {
    }

    lemma IsExtended(bs: seq<Block>, k: nat, offset: int)
      requires |bs| > 0 && k == |bs| - 1
      ensures LastExtended(bs, bs[k := Extended(bs[k], offset)], offset)
    {
    }

    ghost method Refill(bs: seq<Block>, rs: seq<nat>, more: set<object>)
      requires this !in more && (forall s :: s in members ==> s !in more)
      requires AllApart(segs + frees, members) && Lists(segs, firstseg, lastseg, frees, freeseg, members)
      requires Live(segs, bs, rs, members, more) && Spare(frees, spareRoom, members, more)
      requires nsegment == |segs| && nfreeseg == |frees|
      requires nsegmentDeltas == Sum(rs) && nfreesegDeltas == Sum(spareRoom)
      modifies this`blocks, this`room, this`arrays
      ensures Shape() && blocks == bs && arrays == more
    {
      hide *;
      blocks, room, arrays := bs, rs, more;
      Close();
    }

    // What an operation on the last segment may rely on.
    lemma LastHead() returns (ds: seq<array<Segoff>>)
      requires Shape() && segs != []
      ensures lastseg == segs[|segs| - 1] && lastseg in members && lastseg.deltas in arrays
      ensures |blocks| == |room| == |segs| && |frees| == |spareRoom| && Inside(segs + frees, members)
      ensures lastseg.Is(blocks[|blocks| - 1]) && lastseg.deltas.Length == room[|room| - 1]
      ensures |ds| == |segs + frees| && forall i, j :: 0 <= i < j < |ds| ==> Unequal(segs + frees, ds, i, j)
      ensures forall i :: 0 <= i < |ds| ==> ds[i] in arrays
      ensures ds[|segs| - 1] == lastseg.deltas
      ensures forall i :: 0 <= i < |segs| - 1 ==> segs[i] != lastseg && ds[i] != lastseg.deltas && segs[i].Is(blocks[i])
      ensures forall i :: 0 <= i < |segs| - 1 ==> segs[i].deltas == ds[i] && ds[i].Length == room[i]
      ensures forall i :: 0 <= i < |frees| ==> frees[i] != lastseg && frees[i].deltas == ds[|segs| + i]
      ensures forall i :: 0 <= i < |frees| ==> frees[i].deltas.Length == spareRoom[i] > 0
    {
      var a := segs + frees;
      ds := ArraysOf(a);
      ApartFrom(a, members, |segs| - 1);
      assert forall i :: 0 <= i < |segs| ==> a[i] == segs[i];
      assert forall i :: 0 <= i < |frees| ==> a[|segs| + i] == frees[i];
      forall i, j | 0 <= i < j < |ds| ensures Unequal(a, ds, i, j) {
        assert Apart(a, i, j);
      }
    }

    // Log one more gno, at an offset beyond all others.
    method Append(uuid: Uuid, gno: int, offset: int)
      requires Valid() && GNO_INITIAL <= gno < GNO_MAX
      requires Log(blocks) != [] ==> Log(blocks)[|Log(blocks)| - 1].offset < offset
      modifies this, members, arrays
      ensures Valid() && Log(blocks) == old(Log(blocks)) + [LogEntry(uuid, gno, offset)]
      ensures (forall s :: s in members ==> s in old(members) || fresh(s)) && forall o :: o in arrays ==> o in old(arrays) || fresh(o)
      ensures peak == if |segs| > old(peak) then |segs| else old(peak)
    {
      ghost var e := LogEntry(uuid, gno, offset);
      MayAppend(e);
      hide *;
      var more := Goes(uuid, gno, offset, e);
      if !more {
        StartNew(uuid, gno, offset, e);
      } else {
        GoOn(offset, e);
      }
    }

    lemma MayAppend(e: LogEntry)
      requires Valid() && GNO_INITIAL <= e.gno < GNO_MAX
      requires Log(blocks) != [] ==> Log(blocks)[|Log(blocks)| - 1].offset < e.offset
      ensures MayStart(blocks, e)
    {
      LogAscends(blocks);
      assert blocks != [] ==> Good(blocks[|blocks| - 1]);
    }

    // Whether the last segment can take the gno: same uuid, no gap, and the delta fits.
    method Goes(uuid: Uuid, gno: int, offset: int, ghost e: LogEntry) returns (more: bool)
      requires Valid() && MayStart(blocks, e) && e == LogEntry(uuid, gno, offset)
      ensures more == MayGoOn(blocks, e)
    {
      AtLast();
      more := lastseg != null && lastseg.uuid == uuid && lastseg.baseGno + lastseg.ngno == gno
        && offset < lastseg.baseOffset + SEGMENT_SIZE;
    }

    lemma AtLast()
      requires Shape()
      ensures |segs| == |blocks| && (lastseg == null <==> blocks == [])
      ensures lastseg != null ==> lastseg == segs[|segs| - 1] && lastseg.Is(blocks[|blocks| - 1])
    {
    }

    method StartNew(uuid: Uuid, gno: int, offset: int, ghost e: LogEntry)
      requires Valid() && MayStart(blocks, e) && e == LogEntry(uuid, gno, offset)
      modifies this, members, arrays
      ensures Valid() && Log(blocks) == old(Log(blocks)) + [e]
      ensures (forall s :: s in members ==> s in old(members) || fresh(s)) && forall o :: o in arrays ==> o in old(arrays) || fresh(o)
      ensures peak == if |segs| > old(peak) then |segs| else old(peak)
    {
      Sizes();
      assert Empty(e) == Block(uuid, gno, offset, [], 0);
      hide *;
      Started(blocks, e);
      var x := Switch(uuid, gno, offset);
      AppendLast(x, offset);
      Raise();
    }

    lemma Sizes()
      requires Valid()
      ensures Shape() && GoodBlocks(blocks) && |segs| + |frees| <= peak
    {
    }

    // Note the largest number of segments in use.
    ghost method Raise()
      requires Shape() && GoodBlocks(blocks) && |segs| + |frees| <= (if |segs| > peak then |segs| else peak)
      modifies this`peak
      ensures Valid() && peak == if |segs| > old(peak) then |segs| else old(peak)
    {
      peak := if |segs| > peak then |segs| else peak;
    }

    method GoOn(offset: int, ghost e: LogEntry)
      requires Valid() && MayGoOn(blocks, e) && e.offset == offset
      modifies this`nsegmentDeltas, this`blocks, this`room, this`arrays, this`peak, members, arrays
      ensures Valid() && Log(blocks) == old(Log(blocks)) + [e]
      ensures members == old(members) && forall o :: o in arrays ==> o in old(arrays) || fresh(o)
      ensures peak == if |segs| > old(peak) then |segs| else old(peak)
    {
      hide *;
      Sizes();
      AtLast();
      GoneOn(blocks, e);
      Nonempty(e);
      AppendLast(lastseg, offset);
      Raise();
    }

    lemma Nonempty(e: LogEntry)
      requires MayGoOn(blocks, e)
      ensures blocks != []
    {
    }

    // ----- Trim -------------------------------------------------------------------------------------------

    // Forget what was logged before offset "until".
    method Trim(until: int)
      requires Valid()
      modifies this, members
      ensures Valid() && Log(blocks) == Kept(old(Log(blocks)), until)
      ensures members == old(members) && arrays == old(arrays) && peak == old(peak)
    {
      hide *;
      var done := false;
      Sizes();
      ghost var log := Log(blocks);
      while !done && firstseg != null
        invariant Valid() && GoodBlocks(blocks) && members == old(members) && arrays == old(arrays) && peak == old(peak)
        invariant if done then Log(blocks) == Kept(log, until) else Kept(Log(blocks), until) == Kept(log, until)
        decreases if done then 0 else 1, |blocks|
      {
        done := TrimFirst(until);
      }
      NothingLeft(done, until);
    }

    lemma NothingLeft(done: bool, until: int)
      requires Valid() && (done || firstseg == null)
      ensures !done ==> Log(blocks) == Kept(Log(blocks), until)
    {
    }

    // Drop the first segment, or cut it.
    method TrimFirst(until: int) returns (done: bool)
      requires Valid() && firstseg != null
      modifies this, members
      ensures Valid() && GoodBlocks(blocks) && members == old(members) && arrays == old(arrays) && peak == old(peak)
      ensures if done then Log(blocks) == Kept(old(Log(blocks)), until)
              else Kept(Log(blocks), until) == Kept(old(Log(blocks)), until) && |blocks| < old(|blocks|)
    {
      AtFirst();
      var tailOffset := firstseg.baseOffset + firstseg.deltas[firstseg.ngno - 1] as int;
      hide *;
      if tailOffset < until {
        DroppedBlock(blocks, until);
        DropFirst();
        done := false;
      } else {
        CutFirst(until);
        done := true;
      }
    }

    lemma AtFirst()
      requires Valid() && firstseg != null
      ensures blocks != [] && segs != [] && GoodBlocks(blocks) && firstseg == segs[0] && firstseg.Is(blocks[0])
      ensures 0 < firstseg.ngno <= firstseg.deltas.Length
      ensures TailOffset(blocks[0]) == firstseg.baseOffset + firstseg.deltas[firstseg.ngno - 1] as int
      ensures firstseg in members
    {
      assert Good(blocks[0]);
    }

    method DropFirst()
      requires Valid() && segs != [] && GoodBlocks(blocks[1..])
      modifies this, members
      ensures Valid() && GoodBlocks(blocks) && blocks == old(blocks[1..]) && |blocks| < old(|blocks|)
      ensures members == old(members) && arrays == old(arrays) && peak == old(peak)
    {
      Sizes();
      Open();
      hide *;
      var x := Vacate();
      Open();
      if nsegment > nfreeseg {
        Keep(x);
      }
      Sound();
    }

    lemma Sound()
      requires Shape() && GoodBlocks(blocks) && |segs| + |frees| <= peak
      ensures Valid()
    {
    }

    method CutFirst(until: int)
      requires Valid() && firstseg != null && blocks != [] && GoodBlocks(blocks) && TailOffset(blocks[0]) >= until
      modifies this`blocks, members`tgno
      ensures Valid() && GoodBlocks(blocks) && Log(blocks) == Kept(old(Log(blocks)), until)
    {
      AtFirst();
      ReachesTail();
      Sizes();
      hide *;
      var l := firstseg.Search(until, blocks[0]);
      Reached(until, l);
      CutBlock(blocks, until, l);
      SetTrimmed(firstseg, l);
      Sound();
    }

    lemma ReachesTail()
      requires GoodBlocks(blocks) && blocks != []
      ensures Good(blocks[0]) && blocks[0].tgno < |blocks[0].deltas|
    {
    }

    lemma Reached(until: int, l: nat)
      requires blocks != [] && blocks[0].tgno < |blocks[0].deltas| && blocks[0].tgno <= l <= |blocks[0].deltas|
      requires TailOffset(blocks[0]) >= until
      requires l < |blocks[0].deltas| ==> blocks[0].baseOffset + blocks[0].deltas[l] >= until
      requires l > blocks[0].tgno ==> blocks[0].baseOffset + blocks[0].deltas[l - 1] < until
      ensures FirstFrom(blocks[0], until, l)
    {
    }

    method SetTrimmed(x: Segment, l: nat)
      requires Shape() && segs != [] && blocks != [] && x == segs[0] && x in members
      modifies this`blocks, x`tgno
      ensures Shape() && blocks == old(blocks)[0 := old(blocks)[0].(tgno := l)]
    {
      Open();
      ApartFrom(segs + frees, members, 0);
      assert forall i :: 0 <= i < |segs| ==> (segs + frees)[i] == segs[i];
      x.tgno := l;
      blocks := blocks[0 := blocks[0].(tgno := l)];
    }
  }
}
