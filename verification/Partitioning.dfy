/**
 How user partitions are laid over internal messages.

 A buffer of `users * userSize` elements is cut by the user into `users` partitions and by the
 library into `parts` messages of `size` elements.  `general_send` and `map_recv_buffer` translate
 a partition id into a half-open range of message indices; everything the library promises about
 gating and arrival rests on how that range lies over the elements.
 */
module Partitioning {

  datatype Layout = Layout(users: nat, parts: nat) {

    predicate Positive() {
      users > 0 && parts > 0
    }

    /** No partition id is mapped outside the array of internal messages. */
    predicate Safe() {
      Positive() && (users <= parts || users % parts == 0)
    }

    /** One of the two counts divides the other. */
    predicate Aligned() {
      Positive() && (parts % users == 0 || users % parts == 0)
    }

    function First(id: nat): nat
      requires Positive()
    {
      if users <= parts then (parts / users) * id else id / (users / parts)
    }

    function Last(id: nat): nat
      requires Positive()
    {
      if users <= parts then (parts / users) * (id + 1) else First(id) + 1
    }

    /** How many ready partitions it takes to start one message. */
    function Threshold(): nat
      requires Positive()
    {
      if users <= parts then 1 else users / parts
    }

    predicate Maps(id: nat, i: nat)
      requires Positive()
    {
      First(id) <= i < Last(id)
    }

    /** The range of the partition is not empty and lies inside the array of internal messages. */
    predicate InRange(id: nat)
      requires Positive()
    {
      First(id) < Last(id) <= parts
    }

    /** Some partition is counted towards message `i`. */
    ghost predicate Reached(i: nat)
      requires Positive()
    {
      exists id: nat :: id < users && Maps(id, i)
    }

    /** The partitions that are counted towards message `i`. */
    ghost function Mappers(i: nat): set<nat>
      requires Positive()
    {
      set p: nat | p < users && Maps(p, i)
    }
  }

  // ----- arithmetic used below

  lemma MulMono(a: nat, b: nat, k: nat)
    requires a <= b
    ensures a * k <= b * k
  {}

  lemma DivBounds(a: nat, d: nat)
    requires d > 0
    ensures a / d * d <= a < (a / d + 1) * d
  {}

  lemma DivUnique(a: nat, d: nat, q: nat)
    requires d > 0 && q * d <= a < (q + 1) * d
    ensures a / d == q
  {
    DivBounds(a, d);
    if a / d < q {
      MulMono(a / d + 1, q, d);
    } else if q < a / d {
      MulMono(q + 1, a / d, d);
    }
  }

  lemma DivPositive(a: nat, d: nat)
    requires 0 < d <= a
    ensures a / d >= 1
  {
    if a / d == 0 { DivBounds(a, d); }
  }

  lemma ExactQuotient(a: nat, d: nat)
    requires d > 0 && a % d == 0
    ensures a == (a / d) * d
  {}

  lemma DividesOfQuotient(a: nat, d: nat, q: nat)
    requires d > 0 && a == q * d
    ensures a % d == 0 && a / d == q
  {
    DivUnique(a, d, q);
  }

  // ----- fewer partitions than messages: the ranges tile a prefix

  /** For `users <= parts` the range of every id is non-empty and in bounds, distinct ids have
      disjoint ranges, and together they cover exactly the first `(parts / users) * users` messages;
      message `i` is in the range of id `i / (parts / users)`. */
  lemma RangesTile(c: Layout, i: nat)
    requires c.Positive() && c.users <= c.parts
    ensures forall id: nat :: id < c.users ==> c.First(id) < c.Last(id) <= c.parts
    ensures forall p: nat, q: nat :: p < c.users && q < c.users && c.Maps(p, i) && c.Maps(q, i) ==> p == q
    ensures i < (c.parts / c.users) * c.users <==> c.Reached(i)
    ensures c.parts / c.users >= 1 && forall p: nat :: c.Maps(p, i) <==> p == i / (c.parts / c.users)
  {
    var m := c.parts / c.users;
    DivPositive(c.parts, c.users);
    DivBounds(c.parts, c.users);
    forall id: nat | id < c.users
      ensures c.First(id) < c.Last(id) <= c.parts
    {
      RangeShape(m, id, c.users);
    }
    forall p: nat
      ensures c.Maps(p, i) <==> p == i / m
    {
      DivBounds(i, m);
      if c.Maps(p, i) { DivUnique(i, m, p); }
    }
    RangesReach(c, i);
  }

  lemma RangeShape(m: nat, id: nat, n: nat)
    requires m > 0 && id < n
    ensures m * id < m * (id + 1) <= m * n
  {
    MulMono(id + 1, n, m);
  }

  lemma RangesReach(c: Layout, i: nat)
    requires c.Positive() && c.users <= c.parts
    ensures i < (c.parts / c.users) * c.users <==> c.Reached(i)
  {
    var m := c.parts / c.users;
    DivPositive(c.parts, c.users);
    if i < m * c.users {
      var id := i / m;
      DivBounds(i, m);
      if id >= c.users { MulMono(c.users, id, m); }
      assert c.Maps(id, i);
    }
    if id: nat :| id < c.users && c.Maps(id, i) {
      RangeShape(m, id, c.users);
    }
  }

  /** The ranges reach every message exactly when the partition count divides the message count. */
  lemma RangesCoverIffDivides(c: Layout)
    requires c.Positive() && c.users <= c.parts
    ensures (forall i: nat :: i < c.parts ==> c.Reached(i)) <==> c.parts % c.users == 0
  {
    var m := c.parts / c.users;
    if c.parts % c.users == 0 {
      ExactQuotient(c.parts, c.users);
      forall i: nat | i < c.parts
        ensures c.Reached(i)
      {
        RangesTile(c, i);
      }
    } else {
      DivBounds(c.parts, c.users);
      assert m * c.users < c.parts by {
        if m * c.users == c.parts { DividesOfQuotient(c.parts, c.users, m); }
      }
      RangesTile(c, m * c.users);
      assert !c.Reached(m * c.users);
    }
  }

  // ----- more partitions than messages: groups of consecutive ids

  /** For `users > parts` the computed message index is in bounds for every id exactly when the
      message count divides the partition count. */
  lemma GroupIndexInBoundsIffDivides(c: Layout)
    requires c.Positive() && c.users > c.parts
    ensures (forall id: nat :: id < c.users ==> c.Last(id) <= c.parts) <==> c.users % c.parts == 0
  {
    var t := c.users / c.parts;
    DivPositive(c.users, c.parts);
    DivBounds(c.users, c.parts);
    if c.users % c.parts == 0 {
      ExactQuotient(c.users, c.parts);
      forall id: nat | id < c.users
        ensures c.Last(id) <= c.parts
      {
        DivBounds(id, t);
        if id / t >= c.parts { MulMono(c.parts, id / t, t); }
      }
    } else {
      var id := t * c.parts;
      assert id < c.users by {
        if id == c.users { DividesOfQuotient(c.users, c.parts, t); }
      }
      DivUnique(id, t, c.parts);
      assert c.Last(id) == c.parts + 1;
    }
  }

  /** Message `i` is the image of exactly `Threshold` consecutive ids; with `parts` dividing `users` the
      groups use up all ids. */
  lemma GroupIsInterval(c: Layout, id: nat, i: nat)
    requires c.Positive() && c.users > c.parts
    ensures c.Threshold() == c.users / c.parts >= 1
    ensures c.users % c.parts == 0 ==> c.users == c.Threshold() * c.parts && c.Threshold() >= 2
    ensures c.Maps(id, i) <==> i * c.Threshold() <= id < (i + 1) * c.Threshold()
  {
    var t := c.users / c.parts;
    if c.users % c.parts == 0 { ExactQuotient(c.users, c.parts); }
    DivPositive(c.users, c.parts);
    DivBounds(id, t);
    if i * t <= id < (i + 1) * t { DivUnique(id, t, i); }
  }

  lemma ThresholdPositive(c: Layout)
    requires c.Positive()
    ensures c.Threshold() >= 1
  {
    if c.users > c.parts { DivPositive(c.users, c.parts); }
  }

  /** Every range of a safe layout is a non-empty interval inside the message array
      (the assertion at the end of `map_local_to_network_partitions`). */
  lemma RangeInBounds(c: Layout, id: nat)
    requires c.Safe() && id < c.users
    ensures c.First(id) < c.Last(id) <= c.parts
  {
    if c.users <= c.parts {
      RangesTile(c, 0);
    } else {
      GroupIndexInBoundsIffDivides(c);
    }
  }

  /** The safe layouts are those that map every id inside the array. */
  lemma AllInRangeIffSafe(c: Layout)
    requires c.Positive()
    ensures (forall id: nat :: id < c.users ==> c.InRange(id)) <==> c.Safe()
  {
    if c.users <= c.parts {
      RangesTile(c, 0);
    } else {
      GroupIndexInBoundsIffDivides(c);
      if c.Safe() {
        forall id: nat | id < c.users
          ensures c.InRange(id)
        {
          RangeInBounds(c, id);
        }
      } else {
        var id: nat :| id < c.users && c.Last(id) > c.parts;
        assert !c.InRange(id);
      }
    }
  }

  ghost function Interval(lo: nat, hi: nat): (s: set<nat>)
    requires lo <= hi
    ensures |s| == hi - lo
    ensures forall p: nat :: p in s <==> lo <= p < hi
    decreases hi
  {
    if lo == hi then {} else Interval(lo, hi - 1) + {hi - 1}
  }

  /** Aligned layouts gate every message on exactly `Threshold` partitions. */
  lemma MappersSize(c: Layout, i: nat)
    requires c.Aligned() && i < c.parts
    ensures |c.Mappers(i)| == c.Threshold()
  {
    if c.users <= c.parts {
      AlignedMultiples(c);
      RangesCoverIffDivides(c);
      RangesTile(c, i);
      assert c.Reached(i);
      var id: nat :| id < c.users && c.Maps(id, i);
      assert c.Mappers(i) == {id};
    } else {
      GroupSize(c, i);
    }
  }

  lemma GroupFits(i: nat, parts: nat, t: nat)
    requires i < parts
    ensures (i + 1) * t == i * t + t <= t * parts
  {
    MulMono(i + 1, parts, t);
  }

  lemma GroupSize(c: Layout, i: nat)
    requires c.Aligned() && i < c.parts < c.users
    ensures |c.Mappers(i)| == c.Threshold()
  {
    AlignedGroups(c);
    var t := c.Threshold();
    GroupFits(i, c.parts, t);
    var lo := i * t;
    MappersAreInterval(c, i, lo, t);
  }

  lemma MappersAreInterval(c: Layout, i: nat, lo: nat, t: nat)
    requires c.Positive() && c.users > c.parts && c.users % c.parts == 0 && t == c.Threshold()
    requires lo == i * t && (i + 1) * t == lo + t <= c.users
    ensures |c.Mappers(i)| == t
  {
    forall p: nat
      ensures c.Maps(p, i) <==> lo <= p < lo + t
    {
      GroupIsInterval(c, p, i);
    }
    assert c.Mappers(i) == Interval(lo, lo + t);
  }

  lemma AlignedMultiples(c: Layout)
    requires c.Aligned() && c.users <= c.parts
    ensures c.parts % c.users == 0 && c.parts == (c.parts / c.users) * c.users
  {
    if c.parts % c.users != 0 {
      ExactQuotient(c.users, c.parts);
      DivUnique(c.users, c.parts, if c.users == c.parts then 1 else 0);
      assert false;
    }
    ExactQuotient(c.parts, c.users);
  }

  lemma AlignedGroups(c: Layout)
    requires c.Aligned() && c.users > c.parts
    ensures c.users % c.parts == 0 && c.users == c.Threshold() * c.parts && c.Threshold() >= 2
  {
    if c.users % c.parts != 0 {
      ExactQuotient(c.parts, c.users);
      DivUnique(c.parts, c.users, 0);
      assert false;
    }
    GroupIsInterval(c, 0, 0);
  }

  lemma AlignedIsSafe(c: Layout)
    requires c.Aligned()
    ensures c.Safe()
  {
    if c.users > c.parts { AlignedGroups(c); }
  }

  /** Every message is reached exactly if one of the two counts divides the other. */
  lemma AllReachedIffAligned(c: Layout)
    requires c.Safe()
    ensures (forall i: nat :: i < c.parts ==> c.Reached(i)) <==> c.Aligned()
  {
    if c.users <= c.parts {
      RangesCoverIffDivides(c);
      if c.Aligned() { AlignedMultiples(c); }
    } else {
      forall i: nat | i < c.parts
        ensures c.Reached(i)
      {
        MappersSize(c, i);
        DivPositive(c.users, c.parts);
        var p :| p in c.Mappers(i);
      }
    }
  }

  // ----- elements

  /** A layout together with the element counts of both cuts of the same buffer. */
  datatype Geometry = Geometry(layout: Layout, userSize: nat, size: nat) {

    predicate Valid() {
      layout.Positive() && userSize > 0 && size > 0 && layout.users * userSize == layout.parts * size
    }

    function Total(): nat {
      layout.parts * size
    }

    function SliceEnd(i: nat): nat {
      i * size + size
    }

    predicate InPartition(p: nat, e: nat) {
      p * userSize <= e < p * userSize + userSize
    }

    predicate InSlice(i: nat, e: nat) {
      i * size <= e < SliceEnd(i)
    }

    ghost predicate Overlap(p: nat, i: nat) {
      exists e: nat :: InPartition(p, e) && InSlice(i, e)
    }
  }

  lemma OverlapByBounds(g: Geometry, p: nat, i: nat)
    requires g.Valid()
    ensures g.Overlap(p, i) <==> p * g.userSize < (i + 1) * g.size && i * g.size < (p + 1) * g.userSize
  {
    if p * g.userSize < (i + 1) * g.size && i * g.size < (p + 1) * g.userSize {
      var e := if p * g.userSize <= i * g.size then i * g.size else p * g.userSize;
      assert g.InPartition(p, e) && g.InSlice(i, e);
    }
  }

  lemma Cancel(a: nat, b: nat, k: nat)
    requires k > 0 && a * k == b * k
    ensures a == b
  {
    StrictScale(a, b, k);
    StrictScale(b, a, k);
  }

  /** In an aligned layout a partition is counted towards exactly the messages that carry some of
      its elements. */
  lemma AlignedMapsExactlyOverlaps(g: Geometry, p: nat, i: nat)
    requires g.Valid() && g.layout.Aligned() && p < g.layout.users && i < g.layout.parts
    ensures g.layout.Maps(p, i) <==> g.Overlap(p, i)
  {
    OverlapByBounds(g, p, i);
    if g.layout.users <= g.layout.parts {
      FineMapsExactlyOverlaps(g, p, i);
    } else {
      CoarseMapsExactlyOverlaps(g, p, i);
    }
  }

  lemma FineMapsExactlyOverlaps(g: Geometry, p: nat, i: nat)
    requires g.Valid() && g.layout.Aligned() && g.layout.users <= g.layout.parts
    ensures g.layout.Maps(p, i) <==> p * g.userSize < (i + 1) * g.size && i * g.size < (p + 1) * g.userSize
  {
    AlignedMultiples(g.layout);
    var m := g.layout.parts / g.layout.users;
    SizesByMultiple(g.layout.users, m, g.userSize, g.size);
    ScaleBounds(p, i, m, g.size);
  }

  lemma CoarseMapsExactlyOverlaps(g: Geometry, p: nat, i: nat)
    requires g.Valid() && g.layout.Aligned() && g.layout.users > g.layout.parts
    ensures g.layout.Maps(p, i) <==> p * g.userSize < (i + 1) * g.size && i * g.size < (p + 1) * g.userSize
  {
    AlignedGroups(g.layout);
    GroupIsInterval(g.layout, p, i);
    var t := g.layout.Threshold();
    SizesByMultiple(g.layout.parts, t, g.size, g.userSize);
    ScaleBounds(i, p, t, g.userSize);
    assert i * t == t * i && (i + 1) * t == t * (i + 1);
  }

  lemma SizesByMultiple(n: nat, m: nat, coarse: nat, fine: nat)
    requires n > 0 && n * coarse == (m * n) * fine
    ensures coarse == m * fine
  {
    assert (m * n) * fine == (m * fine) * n;
    Cancel(coarse, m * fine, n);
  }

  lemma ScaleBounds(p: nat, i: nat, m: nat, k: nat)
    requires k > 0
    ensures p * (m * k) < (i + 1) * k <==> m * p < i + 1
    ensures i * k < (p + 1) * (m * k) <==> i < m * (p + 1)
  {
    assert p * (m * k) == (m * p) * k;
    assert (p + 1) * (m * k) == (m * (p + 1)) * k;
    StrictScale(m * p, i + 1, k);
    StrictScale(i, m * (p + 1), k);
  }

  lemma StrictScale(a: nat, b: nat, k: nat)
    requires k > 0
    ensures a * k < b * k <==> a < b
  {
    if a < b { MulMono(a + 1, b, k); } else { MulMono(b, a, k); }
  }

  /** In a safe layout that is not aligned, the first message of partition 1 also carries elements
      of partition 0, although only partition 1 is counted towards it. */
  lemma UnalignedSharesAMessage(g: Geometry)
    requires g.Valid() && g.layout.Safe() && !g.layout.Aligned()
    ensures 2 <= g.layout.users < g.layout.parts
    ensures g.Overlap(0, g.layout.First(1)) && !g.layout.Maps(0, g.layout.First(1))
    ensures g.layout.First(1) < g.layout.parts
  {
    UnalignedRemainder(g.layout);
    var m := g.layout.parts / g.layout.users;
    RangeInBounds(g.layout, 1);
    RangesTile(g.layout, m);
    ShortRange(g.layout.users, g.layout.parts, m, g.userSize, g.size);
    OverlapByBounds(g, 0, m);
  }

  lemma UnalignedRemainder(c: Layout)
    requires c.Safe() && !c.Aligned()
    ensures 2 <= c.users < c.parts && (c.parts / c.users) * c.users < c.parts
  {
    if c.users == c.parts { DividesOfQuotient(c.parts, c.users, 1); assert false; }
    DivBounds(c.parts, c.users);
    if (c.parts / c.users) * c.users == c.parts {
      DividesOfQuotient(c.parts, c.users, c.parts / c.users);
      assert false;
    }
  }

  lemma ShortRange(n: nat, parts: nat, m: nat, userSize: nat, size: nat)
    requires size > 0 && n * userSize == parts * size && m * n < parts
    ensures m * size < userSize
  {
    StrictScale(m * n, parts, size);
    assert m * n * size == (m * size) * n;
    if m * size >= userSize { MulMono(userSize, m * size, n); }
  }

  /** In a layout that is not aligned, some partition has a range inside the array that leaves out a
      message with one of its elements. */
  lemma UnalignedMisses(g: Geometry) returns (r: nat, i: nat, e: nat)
    requires g.Valid() && !g.layout.Aligned()
    ensures r < g.layout.users && i < g.layout.parts && Missed(g, r, i, e)
  {
    if g.layout.Safe() {
      i, e := SafeMisses(g);
      r := 0;
    } else {
      r, e := UnsafeMisses(g);
      i := 0;
    }
  }

  /** Element `e` of partition `r` is carried by message `i`, which the range of `r` leaves out. */
  predicate Missed(g: Geometry, r: nat, i: nat, e: nat)
    requires g.layout.Positive()
  {
    g.layout.InRange(r) && !g.layout.Maps(r, i) && g.InPartition(r, e) && g.InSlice(i, e)
  }

  lemma SafeMisses(g: Geometry) returns (i: nat, e: nat)
    requires g.Valid() && g.layout.Safe() && !g.layout.Aligned()
    ensures i < g.layout.parts && Missed(g, 0, i, e)
  {
    UnalignedSharesAMessage(g);
    RangeInBounds(g.layout, 0);
    i := g.layout.First(1);
    e :| g.InPartition(0, e) && g.InSlice(i, e);
  }

  lemma MessageOf(g: Geometry, i: nat, e: nat)
    requires g.Valid() && i < g.layout.parts && g.InSlice(i, e)
    ensures e / g.size == i && e < g.Total()
  {
    DivUnique(e, g.size, i);
    MulMono(i + 1, g.layout.parts, g.size);
  }

  /** With more partitions than messages and a rest, the first group is too short for message 0. */
  lemma UnsafeMisses(g: Geometry) returns (r: nat, e: nat)
    requires g.Valid() && !g.layout.Safe()
    ensures r < g.layout.users && Missed(g, r, 0, e)
  {
    r := ShortGroup(g.layout);
    e := r * g.userSize;
    ShortRange(g.layout.parts, g.layout.users, r, g.size, g.userSize);
  }

  lemma ShortGroup(c: Layout) returns (t: nat)
    requires c.Positive() && !c.Safe()
    ensures 0 < t < c.users && t * c.parts < c.users && c.InRange(t) && c.First(t) == 1
  {
    t := c.users / c.parts;
    DivBounds(c.users, c.parts);
    DivPositive(c.users, c.parts);
    assert t * c.parts < c.users by {
      if t * c.parts == c.users { DividesOfQuotient(c.users, c.parts, t); }
    }
    assert c.parts != 1;
    MulMono(2, c.parts, t);
    DividesOfQuotient(t, t, 1);
  }

  /** The ranges take in every message that carries elements of a partition exactly if one of the
      two counts divides the other. */
  lemma RangesCoverOverlapsIffAligned(g: Geometry)
    requires g.Valid()
    ensures RangesCoverOverlaps(g) <==> g.layout.Aligned()
  {
    if g.layout.Aligned() {
      AlignedCovers(g);
    } else {
      var r, i, e := UnalignedMisses(g);
      LeavesOut(g, r, i, e);
    }
  }

  lemma AlignedCovers(g: Geometry)
    requires g.Valid() && g.layout.Aligned()
    ensures RangesCoverOverlaps(g)
  {
    forall p: nat, i: nat | p < g.layout.users && i < g.layout.parts && g.Overlap(p, i)
      ensures g.layout.Maps(p, i)
    {
      AlignedMapsExactlyOverlaps(g, p, i);
    }
  }

  ghost predicate RangesCoverOverlaps(g: Geometry)
    requires g.layout.Positive()
  {
    forall p: nat, i: nat :: p < g.layout.users && i < g.layout.parts && g.Overlap(p, i) ==> g.layout.Maps(p, i)
  }

  lemma LeavesOut(g: Geometry, r: nat, i: nat, e: nat)
    requires g.layout.Positive() && r < g.layout.users && i < g.layout.parts
    requires Missed(g, r, i, e)
    ensures !RangesCoverOverlaps(g)
  {
    assert g.Overlap(r, i);
  }

  /** When partitions are grouped, the elements of the partitions mapped to a message are exactly the
      elements of its slice. */
  lemma GroupFillsSlice(g: Geometry, i: nat, e: nat)
    requires g.Valid() && g.layout.Aligned() && g.layout.users > g.layout.parts && i < g.layout.parts
    ensures g.InSlice(i, e) <==> exists p: nat :: p < g.layout.users && g.layout.Maps(p, i) && g.InPartition(p, e)
  {
    if g.InSlice(i, e) { OwnerIsMapped(g, i, e); }
    if p: nat :| p < g.layout.users && g.layout.Maps(p, i) && g.InPartition(p, e) { MappedIsInside(g, p, i, e); }
  }

  lemma OwnerIsMapped(g: Geometry, i: nat, e: nat)
    requires g.Valid() && g.layout.Aligned() && i < g.layout.parts && g.InSlice(i, e)
    ensures exists p: nat :: p < g.layout.users && g.layout.Maps(p, i) && g.InPartition(p, e)
  {
    MulMono(i + 1, g.layout.parts, g.size);
    PartitionOfElement(g, e);
    var p := e / g.userSize;
    assert g.Overlap(p, i);
    AlignedMapsExactlyOverlaps(g, p, i);
  }

  lemma MappedIsInside(g: Geometry, p: nat, i: nat, e: nat)
    requires g.Valid() && g.layout.Aligned() && g.layout.users > g.layout.parts
    requires g.layout.Maps(p, i) && g.InPartition(p, e)
    ensures g.InSlice(i, e)
  {
    AlignedGroups(g.layout);
    GroupIsInterval(g.layout, p, i);
    var t := g.layout.Threshold();
    SizesByMultiple(g.layout.parts, t, g.size, g.userSize);
    GroupInside(i, p, t, g.userSize);
  }

  lemma GroupInside(i: nat, p: nat, t: nat, k: nat)
    requires i * t <= p < (i + 1) * t
    ensures i * (t * k) <= p * k && p * k + k <= i * (t * k) + t * k
  {
    MulMono(i * t, p, k);
    MulMono(p + 1, (i + 1) * t, k);
    assert i * (t * k) == (i * t) * k;
    assert ((i + 1) * t) * k == (i * t) * k + t * k;
  }

  // ----- slices of the buffer, as internal_setup cuts it

  /** The slices are inside the buffer, pairwise disjoint, and every element lies in one of them. */
  lemma SlicesPartitionBuffer(g: Geometry, e: nat)
    requires g.Valid()
    ensures forall i: nat :: i < g.layout.parts ==> g.SliceEnd(i) <= g.Total()
    ensures forall i: nat, j: nat :: g.InSlice(i, e) && g.InSlice(j, e) ==> i == j
    ensures e < g.Total() <==> e / g.size < g.layout.parts
    ensures g.InSlice(e / g.size, e)
  {
    forall i: nat | i < g.layout.parts
      ensures g.SliceEnd(i) <= g.Total()
    {
      MulMono(i + 1, g.layout.parts, g.size);
    }
    forall i: nat | g.InSlice(i, e)
      ensures i == e / g.size
    {
      DivUnique(e, g.size, i);
    }
    DivBounds(e, g.size);
    if e / g.size < g.layout.parts {
      MulMono(e / g.size + 1, g.layout.parts, g.size);
    } else {
      MulMono(g.layout.parts, e / g.size, g.size);
    }
  }

  /** In bytes, the slice of a message ends before the next one begins and within the buffer. */
  lemma ByteSlicesDisjoint(g: Geometry, extent: nat, i: nat, j: nat)
    requires g.Valid() && extent > 0 && i < j < g.layout.parts
    ensures i * g.size * extent + g.size * extent <= j * g.size * extent
    ensures j * g.size * extent + g.size * extent <= g.Total() * extent
  {
    MulMono(i + 1, j, g.size);
    ScaleGap(i * g.size, g.size, j * g.size, extent);
    MulMono(j + 1, g.layout.parts, g.size);
    ScaleGap(j * g.size, g.size, g.Total(), extent);
  }

  lemma ScaleGap(a: nat, n: nat, b: nat, k: nat)
    requires a + n <= b
    ensures a * k + n * k <= b * k
  {
    MulMono(a + n, b, k);
  }

  /** The user's partitions cut the same buffer, seen from the partition side. */
  lemma PartitionOfElement(g: Geometry, e: nat)
    requires g.Valid() && e < g.Total()
    ensures e / g.userSize < g.layout.users && g.InPartition(e / g.userSize, e)
    ensures forall p: nat :: g.InPartition(p, e) ==> p == e / g.userSize
  {
    DivBounds(e, g.userSize);
    if e / g.userSize >= g.layout.users {
      MulMono(g.layout.users, e / g.userSize, g.userSize);
    }
    forall p: nat | g.InPartition(p, e)
      ensures p == e / g.userSize
    {
      DivUnique(e, g.userSize, p);
    }
  }

  const INT_MAX := 0x7fff_ffff

  /** When the element count of the buffer fits a C `int`, so does every product the set-up code
      forms in `int` arithmetic. */
  lemma NoIntOverflow(g: Geometry, i: nat)
    requires g.Valid() && g.Total() <= INT_MAX && i < g.layout.parts
    ensures g.layout.users * g.userSize <= INT_MAX
    ensures i * g.size + g.size <= INT_MAX
  {
    MulMono(i + 1, g.layout.parts, g.size);
  }
}
