/** The replication stream of a server: which stretch of it was written in psync and which in xsync mode. */
module ReplModes {

  datatype Mode = Unset | Psync | Xsync

  // The previous mode, its first offset, and how offsets were published in it.
  datatype Prev =
    | NoPrev
    | PrevPsync(from: int, replid: string, replid2: string, secondOffset: int)
    | PrevXsync(from: int, replid: string, delta: int)
  {
    function Mode(): Mode {
      match this
      case NoPrev => Unset
      case PrevPsync(_, _, _, _) => Psync
      case PrevXsync(_, _, _) => Xsync
    }
  }

  datatype Located = Invalid | InPrev(limit: int) | AtSwitch | InCur

  const ZERO_REPLID: string := seq(40, i => '0')

  class ReplStream {
    // The current mode and the offset of the first byte of it.
    var mode: Mode
    var from: int
    var prev: Prev
    var replid: string
    var replid2: string
    var secondOffset: int
    // The offset of the last byte of the stream, and what is added to it where it is published in xsync mode.
    var masterOffset: int
    var delta: int
    // The backlog keeps the last histlen bytes, the first of them at offset backlogOff.
    var hasBacklog: bool
    var backlogOff: int
    var histlen: nat
    // In which mode each byte of the backlog was written, by its offset.
    ghost var written: map<int, Mode>

    ghost predicate Valid()
      reads this
    {
      && (forall o :: o in written <==> backlogOff <= o < backlogOff + histlen)
      && (hasBacklog ==> backlogOff + histlen == masterOffset + 1)
      && (!hasBacklog ==> histlen == 0)
      && (mode != Xsync ==> delta == 0)
      && from <= masterOffset + 1
      && (prev != NoPrev ==> prev.Mode() != mode && mode != Unset)
      && (prev.PrevPsync? ==> prev.from <= from)
      && (forall o :: o in written && o >= from ==> written[o] == mode)
      && (forall o :: o in written && prev != NoPrev && prev.from <= o < from ==> written[o] == prev.Mode())
    }

    // All bytes kept at offsets lo to hi were written in mode m.
    ghost predicate WrittenIn(lo: int, hi: int, m: Mode)
      reads this
    {
      forall o :: o in written && lo <= o < hi ==> written[o] == m
    }

    function End(): int
      reads this
    {
      backlogOff + histlen
    }

    constructor ()
      ensures Valid() && mode == Unset && !hasBacklog && masterOffset == 0
    {
      mode, from, prev := Unset, -1, NoPrev;
      replid, replid2, secondOffset := ZERO_REPLID, ZERO_REPLID, -1;
      masterOffset, delta := 0, 0;
      hasBacklog, backlogOff, histlen := false, 0, 0;
      written := map[];
    }

    // ----- The backlog -----------------------------------------------------------------------------------

    method CreateBacklog()
      requires Valid() && !hasBacklog
      modifies this`hasBacklog, this`backlogOff, this`histlen, this`written
      ensures Valid() && hasBacklog && histlen == 0
    {
      hasBacklog, backlogOff, histlen := true, masterOffset + 1, 0;
      written := map[];
    }

    method FreeBacklog()
      requires Valid()
      modifies this`hasBacklog, this`histlen, this`written
      ensures Valid() && !hasBacklog
    {
      hasBacklog, histlen := false, 0;
      written := map[];
    }

    // Appends n bytes to the stream in the current mode; the backlog keeps the last kept of its bytes.
    method Feed(n: nat, kept: nat)
      requires Valid() && hasBacklog && kept <= histlen + n
      modifies this`masterOffset, this`backlogOff, this`histlen, this`written
      ensures Valid() && masterOffset == old(masterOffset) + n && histlen == kept && hasBacklog
      ensures forall o :: o in written ==> written[o] == if o <= old(masterOffset) then old(written)[o] else mode
    {
      backlogOff := masterOffset + n - kept + 1;
      histlen := kept;
      ghost var was, end := written, masterOffset;
      masterOffset := masterOffset + n;
      written := map o | backlogOff <= o <= masterOffset :: if o <= end then was[o] else mode;
    }

    // Drops all bytes; the backlog is not created if there is none.
    method ResetBacklog()
      requires !hasBacklog ==> histlen == 0
      modifies this`backlogOff, this`histlen, this`written
      ensures histlen == 0 && written == map[] && (hasBacklog ==> backlogOff == masterOffset + 1)
    {
      if hasBacklog {
        histlen := 0;
        backlogOff := masterOffset + 1;
      }
      written := map[];
    }

    // ----- Modes -----------------------------------------------------------------------------------------

    method ResetMode(m: Mode)
      modifies this`mode, this`from, this`prev
      ensures mode == m && from == masterOffset + 1 && prev == NoPrev
    {
      prev := NoPrev;
      mode := m;
      from := masterOffset + 1;
    }

    method ShiftMode(m: Mode)
      requires m != Unset && mode != Unset && mode != m
      modifies this`mode, this`from, this`prev
      ensures mode == m && from == masterOffset + 1 && prev.Mode() == old(mode) && prev.from == old(from)
      ensures prev.PrevXsync? ==> prev.replid == replid && prev.delta == delta
      ensures prev.PrevPsync? ==> prev.replid == replid && prev.replid2 == replid2 && prev.secondOffset == secondOffset
    {
      if m == Psync {
        prev := PrevXsync(from, replid, delta);
      } else {
        prev := PrevPsync(from, replid, replid2, secondOffset);
      }
      from := masterOffset + 1;
      mode := m;
    }

    // ----- Published offsets -----------------------------------------------------------------------------

    // The published offset of the byte at the given offset, in the current and in the previous mode.
    function CurReploff(offset: int): int
      reads this
    {
      match mode
      case Psync => offset
      case Xsync => delta + offset
      case Unset => -1
    }

    function PrevReploff(offset: int): int
      reads this
    {
      match prev
      case PrevPsync(_, _, _, _) => offset
      case PrevXsync(_, _, d) => d + offset
      case NoPrev => -1
    }

    // A replica that continues at any offset of the current mode and receives the rest of the stream ends at
    // the published offset of the master.
    method GetMasterReploff() returns (reploff: int)
      requires Valid()
      ensures mode != Unset ==> forall offset :: CurReploff(offset) + (masterOffset - offset) == reploff
      ensures if mode == Unset then reploff == masterOffset else reploff == CurReploff(masterOffset)
    {
      assert mode == Xsync || delta == 0;
      reploff := masterOffset + delta;
    }

    method SetMasterReploff(reploff: int)
      requires mode == Xsync || reploff == masterOffset
      modifies this`delta
      ensures delta == reploff - masterOffset
    {
      delta := reploff - masterOffset;
    }

    // Only a master in xsync mode may name another replication id or offset.
    predicate MayTakeOver(fromMaster: bool, id: string, reploff: int)
      reads this
    {
      (id != "" && id != replid) || (reploff >= 0 && reploff != masterOffset + delta) ==> fromMaster && mode == Xsync
    }

    // Takes over what a master has sent; an empty id and a negative offset were not.
    method TakeOver(fromMaster: bool, id: string, reploff: int) returns (updated: bool)
      requires Valid() && MayTakeOver(fromMaster, id, reploff)
      modifies this`replid, this`delta
      ensures Valid() && replid == if id != "" then id else old(replid)
      ensures masterOffset + delta == if reploff >= 0 then reploff else old(masterOffset + delta)
      ensures updated <==> replid != old(replid) || delta != old(delta)
    {
      updated := false;
      if id != "" && id != replid {
        replid := id;
        updated := true;
      }
      var mine := GetMasterReploff();
      if reploff >= 0 && reploff != mine {
        SetMasterReploff(reploff);
        updated := true;
      }
    }

    method ClearReplid2()
      modifies this`replid2, this`secondOffset
      ensures replid2 == ZERO_REPLID && secondOffset == -1
    {
      replid2, secondOffset := ZERO_REPLID, -1;
    }

    // ----- Switches and resets ---------------------------------------------------------------------------

    // The previous offsets are saved after the delta is cleared, so they are published as before exactly when
    // there was no delta.
    method SwitchToPsync(id: string, reploff: nat)
      requires Valid() && mode == Xsync
      modifies this
      ensures Valid() && mode == Psync && masterOffset == reploff && from == reploff + 1 && replid == id
      ensures prev.PrevXsync? && prev.from == old(from) && prev.replid == old(replid)
      ensures forall offset :: PrevReploff(offset) == old(CurReploff(offset)) <==> old(delta) == 0
      ensures prev.delta == 0 && replid2 == ZERO_REPLID && secondOffset == -1 && hasBacklog == old(hasBacklog)
      ensures old(masterOffset) == reploff ==> written == old(written) && backlogOff == old(backlogOff)
      ensures old(masterOffset) != reploff ==> written == map[]
    {
      if masterOffset != reploff {
        masterOffset := reploff;
        ResetBacklog();
      }
      SetMasterReploff(reploff);
      assert delta == 0;
      ShiftMode(Psync);
      replid := id;
      ClearReplid2();
    }

    method SwitchToXsync(id: string, reploff: int)
      requires Valid() && mode == Psync
      modifies this
      ensures Valid() && mode == Xsync && masterOffset == old(masterOffset) && from == masterOffset + 1
      ensures prev == PrevPsync(old(from), old(replid), old(replid2), old(secondOffset)) && replid == id
      ensures CurReploff(masterOffset) == reploff && replid2 == ZERO_REPLID && secondOffset == -1
      ensures forall offset :: PrevReploff(offset) == old(CurReploff(offset))
      ensures written == old(written) && backlogOff == old(backlogOff) && hasBacklog == old(hasBacklog)
    {
      assert delta == 0;
      ShiftMode(Xsync);
      replid := id;
      ClearReplid2();
      SetMasterReploff(reploff);
    }

    method ResetToPsync(id: string, reploff: nat)
      requires Valid()
      modifies this
      ensures Valid() && mode == Psync && masterOffset == reploff && from == reploff + 1 && prev == NoPrev
      ensures replid == id && written == map[] && CurReploff(masterOffset) == reploff && hasBacklog == old(hasBacklog)
      ensures replid2 == ZERO_REPLID && secondOffset == -1
    {
      masterOffset := reploff;
      ResetBacklog();
      ResetMode(Psync);
      replid := id;
      ClearReplid2();
      delta := 0;
    }

    // The delta is kept.
    method ResetToXsync(id: string, reploff: int)
      requires Valid()
      modifies this
      ensures Valid() && mode == Xsync && from == masterOffset + 1 && prev == NoPrev && replid == id
      ensures masterOffset == (if reploff >= 0 then reploff else old(masterOffset))
      ensures written == map[] && delta == old(delta) && hasBacklog == old(hasBacklog)
      ensures replid2 == ZERO_REPLID && secondOffset == -1
    {
      if reploff >= 0 { masterOffset := reploff; }
      ResetBacklog();
      ResetMode(Xsync);
      ClearReplid2();
      replid := id;
    }

    // ----- Locating a request ----------------------------------------------------------------------------

    // Where a request to continue at offset in mode request belongs. A request is refused only if the byte
    // at the offset was written in the other mode, or before the stretches that are known.
    method Locate(request: Mode, offset: int) returns (r: Located)
      requires Valid() && mode != Unset && request != Unset
      ensures r.InCur? <==> request == mode && from <= offset
      ensures r.InPrev? <==> request == prev.Mode() && prev.from <= offset < from
      ensures r.AtSwitch? <==> request == prev.Mode() && offset == from
      ensures r.InCur? ==> WrittenIn(offset, End(), request)
      ensures r.InPrev? ==>
                r.limit > 0 && offset + r.limit == from
                && WrittenIn(offset, offset + r.limit, request) && WrittenIn(offset + r.limit, End(), mode)
      ensures r.AtSwitch? ==> WrittenIn(prev.from, offset, request) && WrittenIn(offset, End(), mode)
      ensures r.Invalid? && offset in written ==>
                written[offset] != request || (offset < from && (prev != NoPrev ==> offset < prev.from))
    {
      if offset > from {
        r := if request == mode then InCur else Invalid;
      } else if offset == from {
        if request == mode {
          r := InCur;
        } else if prev.Mode() == Unset {
          r := Invalid;
        } else {
          r := AtSwitch;
        }
      } else if prev.Mode() == Unset {
        r := Invalid;
      } else if offset >= prev.from {
        assert prev.from < from;
        if request == prev.Mode() {
          r := InPrev(from - offset);
        } else {
          r := Invalid;
        }
      } else {
        r := Invalid;
      }
    }
  }
}
