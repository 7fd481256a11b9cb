/** What the two sides of a partial resynchronisation compute, on plain sets of ids. */
module Handshake {
  import opened SeqLogs
  import opened SeqQueries
  import opened Tables

  // The ids up to the continue point: all that the master knows but what it is about to stream.
  function Continue(known: set<Id>, xsync: set<Id>): set<Id> {
    known - xsync
  }

  // What the replica has and the master lacks; it becomes lost on the master.
  function MasterLost(request: set<Id>, cont: set<Id>): set<Id> {
    request - cont
  }

  // What the master has and the replica lacks; it becomes lost on the replica.
  function ReplicaLost(cont: set<Id>, known: set<Id>): set<Id> {
    cont - known
  }

  // Executed on one side up to the continue point and not on the other.
  function MasterGap(executed: set<Id>, xsync: set<Id>, request: set<Id>, requestLost: set<Id>): set<Id> {
    (executed - xsync) - (request - requestLost)
  }

  function ReplicaGap(executed: set<Id>, xsync: set<Id>, request: set<Id>, requestLost: set<Id>): set<Id> {
    (request - requestLost) - (executed - xsync)
  }

  function Gap(executed: set<Id>, xsync: set<Id>, request: set<Id>, requestLost: set<Id>): nat {
    |MasterGap(executed, xsync, request, requestLost)| + |ReplicaGap(executed, xsync, request, requestLost)|
  }

  // Once the master has added what it lacked, it knows what the replica asked with, what the reply
  // will tell the replica, and what is to be streamed; the stream is disjoint from the rest.
  lemma MasterAdjusts(executed: set<Id>, lost: set<Id>, xsync: set<Id>, request: set<Id>)
    requires xsync <= executed && executed !! lost && xsync !! request
    ensures var cont := Continue(executed + lost, xsync);
            && executed !! lost + MasterLost(request, cont)
            && executed + (lost + MasterLost(request, cont)) == request + cont + xsync
            && xsync !! request + cont
  {
    var cont := Continue(executed + lost, xsync);
    assert forall x :: x in executed && x !in xsync ==> x in cont;
    assert forall x :: x in executed + lost ==> x in xsync || x in cont;
    assert forall x :: x in request ==> x in cont || x in MasterLost(request, cont);
  }

  // The gaps are those between the executed sets once the stream is through.
  lemma GapsAreDifferences(executed: set<Id>, xsync: set<Id>, request: set<Id>, requestLost: set<Id>)
    requires xsync <= executed && xsync !! request
    ensures executed - ((request - requestLost) + xsync) == MasterGap(executed, xsync, request, requestLost)
    ensures ((request - requestLost) + xsync) - executed == ReplicaGap(executed, xsync, request, requestLost)
  {
  }
}
