/** The replication backlog: a ring of the last bytes of the replication stream. */
module Backlog {

  function Joined(chunks: seq<string>): string {
    if chunks == [] then "" else Joined(chunks[..|chunks| - 1]) + chunks[|chunks| - 1]
  }

  class ReplBacklog {
    var buffer: array<char>
    // Where the next byte will be written.
    var idx: nat
    // How many bytes are kept, and the replication offset of the first of them.
    var histlen: nat
    var off: int

    predicate Valid()
      reads this
    {
      0 < buffer.Length && idx < buffer.Length && histlen <= buffer.Length
    }

    // Where the byte with the given number of bytes of history before it is kept.
    function Slot(k: nat): (i: nat)
      requires Valid()
      reads this
      ensures i < buffer.Length
    {
      (idx + (buffer.Length - histlen) + k) % buffer.Length
    }

    // The bytes kept, oldest first: the byte at replication offset off + k is at index k.
    ghost function History(): (s: string)
      requires Valid()
      reads this, buffer
      ensures |s| == histlen
    {
      seq(histlen, k requires 0 <= k < histlen && Valid() reads this, buffer => buffer[Slot(k)])
    }

    lemma SlotIs(k: nat)
      requires Valid() && k <= histlen
      ensures var x := idx + buffer.Length - histlen + k;
              Slot(k) == if x < buffer.Length then x else x - buffer.Length
    {
      ModOnce(idx + buffer.Length - histlen + k, buffer.Length);
    }

    // The history occupies successive slots of the ring, each one once, and ends where the next byte will go.
    lemma SlotsLeadToIdx(k: nat, m: nat)
      requires Valid() && k < m <= histlen
      ensures Slot(histlen) == idx
      ensures Slot(k + 1) == if Slot(k) + 1 == buffer.Length then 0 else Slot(k) + 1
      ensures m < histlen ==> Slot(k) != Slot(m)
    {
      hide Slot;
      SlotIs(k);
      SlotIs(k + 1);
      SlotIs(m);
      SlotIs(histlen);
    }

    lemma SlotFrom(j: nat, skip: nat)
      requires Valid() && j == (idx + (buffer.Length - histlen)) % buffer.Length && skip <= histlen
      ensures Slot(skip) == (j + skip) % buffer.Length
    {
      ModOnce(idx + (buffer.Length - histlen), buffer.Length);
      ModOnce(j + skip, buffer.Length);
      SlotIs(skip);
    }

    // From slot j on the history goes on without wrapping up to the end of the buffer.
    lemma StretchIsHistory(from: nat, j: nat, n: nat)
      requires Valid() && from + n <= histlen && j + n <= buffer.Length && n > 0 && Slot(from) == j
      ensures buffer[j..j + n] == History()[from..from + n]
      ensures j + n == buffer.Length ==> Slot(from + n) == 0
    {
      hide Slot;
      SlotIs(from);
      SlotIs(from + n);
      var stretch := buffer[j..j + n];
      forall k | 0 <= k < n
        ensures stretch[k] == History()[from + k]
      {
        SlotIs(from + k);
      }
    }

    // Passes to the callback the bytes from offset on, at most limit of them; chunks are the callback's arguments.
    method ConsumeLimited(offset: int, limit: nat) returns (added: nat, chunks: seq<string>)
      requires Valid() && off <= offset && (histlen > 0 ==> offset <= off + histlen)
      ensures histlen > 0 ==> added == if limit < off + histlen - offset then limit else off + histlen - offset
      ensures histlen > 0 ==> Joined(chunks) == History()[offset - off..offset - off + added]
      ensures histlen == 0 ==> added == 0 && chunks == []
      ensures |chunks| <= 2 && forall c :: c in chunks ==> c != ""
    {
      hide Slot, History, Joined;
      added, chunks := 0, [];
      Nothing(chunks);
      if histlen == 0 { return; }
      var skip := offset - off;
      var j := (idx + (buffer.Length - histlen)) % buffer.Length;
      SlotFrom(j, skip);
      j := (j + skip) % buffer.Length;
      var len := histlen - skip;
      len := if len < limit then len else limit;
      ghost var total := len;
      while len != 0
        invariant 0 <= len && added + len == total <= histlen - skip && 0 <= j < buffer.Length
        invariant len > 0 ==> Slot(skip + added) == j
        invariant Joined(chunks) == History()[skip..skip + added]
        invariant |chunks| == 0 || (|chunks| == 1 && j == 0) || (|chunks| <= 2 && len == 0)
        invariant forall c :: c in chunks ==> c != ""
      {
        var thislen := if buffer.Length - j < len then buffer.Length - j else len;
        StretchIsHistory(skip + added, j, thislen);
        JoinedWith(chunks, buffer[j..j + thislen]);
        chunks := chunks + [buffer[j..j + thislen]];
        len := len - thislen;
        j := 0;
        added := added + thislen;
      }
    }
  }

  lemma Nothing(chunks: seq<string>)
    ensures chunks == [] ==> Joined(chunks) == ""
  {
  }

  lemma JoinedWith(chunks: seq<string>, c: string)
    ensures Joined(chunks + [c]) == Joined(chunks) + c
  {
    assert (chunks + [c])[..|chunks|] == chunks;
  }

  lemma ModOnce(x: nat, n: nat)
    requires x < 2 * n
    ensures x % n == if x < n then x else x - n
  {
    if x >= n {
      var r := x % n;
      assert x == n * (x / n) + r;
      if x / n >= 2 {
        Grows(n, 2, x / n);
      }
    }
  }

  lemma Grows(n: nat, a: nat, b: nat)
    requires a <= b
    ensures n * a <= n * b
  {
  }
}
