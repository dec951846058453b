/**
 The whole request and its partitions: in which layouts does every run keep the completion that
 `MPIP_Test` sees and the arrivals that `MPIP_Parrived` sees equivalent?
 */
module WholeAndParts {
  import opened Partitioning
  import opened Mpi
  import opened Basics
  import opened ReceiveProtocol
  import opened ReceiveRuns

  // ----- the exact condition

  /** Whenever set-up is over in an active round, the request tests complete if and only if every
      partition tests arrived. */
  ghost predicate WholeIsItsParts(c: Config)
    requires c.layout.Positive()
  {
    forall es :: Possible(c, es) ==> WholeIsItsPartsIn(c, After(c, es))
  }

  ghost predicate WholeIsItsPartsIn(c: Config, s: Receiver)
    requires c.layout.Positive()
  {
    InRound(s) && SetUpOver(s) ==> (Settled(s.reqs, 0, |s.reqs|) <==> AllPartsArrived(c.layout, s.reqs))
  }

  lemma SomeRunTellsThemApart(c: Config)
    requires c.layout.Safe() && !c.layout.Aligned()
    ensures !WholeIsItsParts(c)
  {
    AllReachedIffAligned(c.layout);
    var w: nat :| w < c.layout.parts && !c.layout.Reached(w);
    var s := UserStarts(c, w);
    s := DeliverAllBut(c, s, c.layout.parts, w);
    assert s.reqs[w] == Started;
    forall r: nat | r < c.layout.users
      ensures RangeSettled(c.layout, s.reqs, r)
    {
      RangeInBounds(c.layout, r);
      assert !c.layout.Maps(r, w);
    }
    assert !WholeIsItsPartsIn(c, s);
  }

  /** For a layout whose partitions can all be asked for, completion of the whole and arrival of all
      partitions are equivalent throughout every run if and only if one of the two counts divides the
      other. */
  lemma WholeIsItsPartsIffAligned(c: Config)
    requires c.layout.Safe()
    ensures WholeIsItsParts(c) <==> c.layout.Aligned()
  {
    if c.layout.Aligned() {
      forall es | Possible(c, es)
        ensures WholeIsItsPartsIn(c, After(c, es))
      {
        if SetUpOver(After(c, es)) { WholeIffParts(c, es); }
      }
    } else {
      SomeRunTellsThemApart(c);
    }
  }
}
