/**
 The little of MPI the library stands on: the life of a persistent point-to-point request, and
 what the collective test and wait calls do to an array of them (sections 3.7.5 and 3.9 of MPI 4.0).
 */
module Mpi {
  import opened Partitioning

  /** `Inactive` before a start and after a successful test or wait; `Started` while the transfer
      is under way; `Complete` once it is over and nobody has been told yet. */
  datatype Phase = Inactive | Started | Complete

  /** The flag of `MPI_Testall` over `reqs[lo..hi]`: inactive requests count as complete. */
  predicate Settled(reqs: seq<Phase>, lo: nat, hi: nat)
    requires lo <= hi <= |reqs|
  {
    forall i :: lo <= i < hi ==> reqs[i] != Started
  }

  /** A successful `MPI_Testall` deactivates the requests it covers; a failed one changes nothing. */
  function AfterTestall(reqs: seq<Phase>, lo: nat, hi: nat): (r: seq<Phase>)
    requires lo <= hi <= |reqs|
    ensures |r| == |reqs|
    ensures forall i :: 0 <= i < |reqs| ==> (r[i] == Started <==> reqs[i] == Started)
    ensures (exists i :: lo <= i < hi && reqs[i] == Started) ==> r == reqs
    ensures (forall i :: lo <= i < hi ==> reqs[i] != Started) ==>
      forall i :: 0 <= i < |reqs| ==> r[i] == if lo <= i < hi then Inactive else reqs[i]
  {
    if Settled(reqs, lo, hi) then
      seq(|reqs|, i requires 0 <= i < |reqs| => if lo <= i < hi then Inactive else reqs[i])
    else
      reqs
  }

  /** The messages in the range of partition `r` are over. */
  predicate RangeSettled(c: Layout, reqs: seq<Phase>, r: nat)
    requires c.Positive()
  {
    c.First(r) <= c.Last(r) <= |reqs| && Settled(reqs, c.First(r), c.Last(r))
  }
}
