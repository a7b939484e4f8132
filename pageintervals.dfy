/**
 * The page-interval table of the SelectivePageMigration runtime: a map from
 * page regions to the owning thread, ordered by `PageRegion::operator<`,
 * whose `insert` joins a new region with its neighbours of the same owner.
 * That comparator (both ends strictly smaller) is not a strict weak order,
 * so the map is modelled as the sequence of its entries in map order, and
 * the properties are proved for tables that form a chain under it.
 */
module PageIntervals {
  import opened Wrappers

  /** `PAGE_SIZE` of the runtime: `1 << PAGE_EXP`, with `PAGE_EXP` 12. */
  const PageSize: int := 4096

  /** C division on `long`: the quotient is truncated toward zero. */
  function CDiv(a: int, d: int): int
    requires d > 0
  {
    if a >= 0 then a / d else -((-a) / d)
  }

  /** The page of an address, as `__spm_get` computes it. */
  function PageOf(addr: int): (p: int)
    ensures addr >= 0 ==> p * PageSize <= addr < (p + 1) * PageSize
    ensures addr < 0 ==> (p - 1) * PageSize < addr <= p * PageSize
  {
    CDiv(addr, PageSize)
  }

  /** The page range `__spm_get` asks for: pages of `Ary + Start` and of `Ary + End`. */
  function PageRange(ary: int, start: int, end: int): (r: Region)
    ensures r.start == PageOf(ary + start) && r.end == PageOf(ary + end)
    ensures start <= end ==> r.start <= r.end
  {
    if start <= end then
      PageMonotone(ary + start, ary + end);
      Region(PageOf(ary + start), PageOf(ary + end))
    else
      Region(PageOf(ary + start), PageOf(ary + end))
  }

  lemma {:induction false} PageMonotone(a: int, b: int)
    requires a <= b
    ensures PageOf(a) <= PageOf(b)
  {
    if a >= 0 {
      DivMonotone(a, b);
    } else if b < 0 {
      DivMonotone(-b, -a);
    }
  }

  lemma {:induction false} DivMonotone(a: int, b: int)
    requires 0 <= a <= b
    ensures a / PageSize <= b / PageSize
  {
  }

  // ---------------------------------------------------------------------
  // Regions, the comparator, and tables as sequences

  datatype Region = Region(start: int, end: int)
  datatype Entry = Entry(region: Region, owner: int)

  /** `PageRegion::operator<`: both ends strictly smaller. */
  predicate Before(a: Region, b: Region) {
    if a.start < b.start then a.end < b.end else false
  }

  /** Neither region is before the other: the map considers them the same key. */
  predicate Equivalent(a: Region, b: Region) {
    !Before(a, b) && !Before(b, a)
  }

  predicate Contains(outer: Region, inner: Region) {
    outer.start <= inner.start && inner.end <= outer.end
  }

  /** The entries are strictly increasing under the comparator. */
  predicate Chain(rs: seq<Entry>) {
    forall i, j :: 0 <= i < j < |rs| ==> Before(rs[i].region, rs[j].region)
  }

  /** Some entry of `rs` contains `r` and belongs to `owner`. */
  predicate Covered(rs: seq<Entry>, r: Region, owner: int) {
    exists j :: 0 <= j < |rs| && Contains(rs[j].region, r) && rs[j].owner == owner
  }

  /** Every region of `before` lies inside a region of `after` with the same owner. */
  predicate Subsumes(after: seq<Entry>, before: seq<Entry>) {
    forall i :: 0 <= i < |before| ==> Covered(after, before[i].region, before[i].owner)
  }

  /** Some entry is equivalent to `r`. */
  predicate HasEquivalent(rs: seq<Entry>, r: Region) {
    exists i :: 0 <= i < |rs| && Equivalent(rs[i].region, r)
  }

  /** Number of leading entries before `r`: where the map places a new key `r`. */
  function Lower(rs: seq<Entry>, r: Region): (n: nat)
    ensures n <= |rs|
  {
    if rs == [] || !Before(rs[0].region, r) then 0 else 1 + Lower(rs[1..], r)
  }

  /** `std::map::insert` of a key with no equivalent: the entry goes to position `Lower`. */
  function MapInsert(rs: seq<Entry>, e: Entry): seq<Entry> {
    rs[..Lower(rs, e.region)] + [e] + rs[Lower(rs, e.region)..]
  }

  /** Erasing the two adjacent entries at `lo` and `lo + 1`. */
  function ErasePair(rs: seq<Entry>, lo: nat): seq<Entry>
    requires lo + 1 < |rs|
  {
    rs[..lo] + rs[lo + 2..]
  }

  /** Erasing the entry at `i`. */
  function Remove(rs: seq<Entry>, i: nat): seq<Entry>
    requires i < |rs|
  {
    rs[..i] + rs[i + 1..]
  }

  /** `inner` lies strictly inside `outer` at both ends. */
  predicate StrictlyInside(inner: Region, outer: Region) {
    outer.start < inner.start && inner.end < outer.end
  }

  /** The entry at position `i` of `after` is an entry of `before`. */
  predicate Kept(after: seq<Entry>, i: int, before: seq<Entry>) {
    0 <= i < |after| && after[i] in before
  }

  /** Every entry of `after` other than the one `res` designates is an entry of `before`. */
  predicate Others(after: seq<Entry>, res: Option<nat>, before: seq<Entry>) {
    forall i {:trigger Kept(after, i, before)} :: 0 <= i < |after| && res != Some(i) ==> Kept(after, i, before)
  }

  // ---------------------------------------------------------------------
  // Lemmas about the sequence operations

  /** In a chain, the entries before `r` are exactly the first `Lower` ones. */
  lemma {:induction false} LowerSplits(rs: seq<Entry>, r: Region)
    requires Chain(rs)
    ensures forall i :: 0 <= i < Lower(rs, r) ==> Before(rs[i].region, r)
    ensures forall i :: Lower(rs, r) <= i < |rs| ==> !Before(rs[i].region, r)
  {
    if rs != [] && Before(rs[0].region, r) {
      assert Chain(rs[1..]);
      LowerSplits(rs[1..], r);
    }
  }

  /** Inserting a key with no equivalent keeps the chain and puts the key at `Lower`. */
  lemma {:induction false} MapInsertChain(rs: seq<Entry>, e: Entry)
    requires Chain(rs) && !HasEquivalent(rs, e.region)
    ensures Chain(MapInsert(rs, e))
    ensures |MapInsert(rs, e)| == |rs| + 1 && MapInsert(rs, e)[Lower(rs, e.region)] == e
  {
    var n := Lower(rs, e.region);
    LowerSplits(rs, e.region);
    var t := MapInsert(rs, e);
    forall i | n <= i < |rs|
      ensures Before(e.region, rs[i].region)
    {
      assert !Equivalent(rs[i].region, e.region);
    }
    forall i, j | 0 <= i < j < |t|
      ensures Before(t[i].region, t[j].region)
    {
      if j < n {
        assert t[i] == rs[i] && t[j] == rs[j];
      } else if j == n {
        assert t[i] == rs[i];
      } else if i == n {
        assert t[j] == rs[j - 1];
      } else if i < n {
        assert t[i] == rs[i] && t[j] == rs[j - 1];
      } else {
        assert t[i] == rs[i - 1] && t[j] == rs[j - 1];
      }
    }
  }

  /** Every entry of the original table is still in the table after `MapInsert`. */
  lemma {:induction false} MapInsertSubsumes(rs: seq<Entry>, e: Entry)
    ensures Subsumes(MapInsert(rs, e), rs)
  {
    var n := Lower(rs, e.region);
    var t := MapInsert(rs, e);
    forall i | 0 <= i < |rs|
      ensures Covered(t, rs[i].region, rs[i].owner)
    {
      var j := if i < n then i else i + 1;
      assert t[j] == rs[i];
    }
  }

  lemma {:induction false} ErasePairChain(rs: seq<Entry>, lo: nat)
    requires Chain(rs) && lo + 1 < |rs|
    ensures Chain(ErasePair(rs, lo))
  {
    var t := ErasePair(rs, lo);
    forall i, j | 0 <= i < j < |t|
      ensures Before(t[i].region, t[j].region)
    {
      var i' := if i < lo then i else i + 2;
      var j' := if j < lo then j else j + 2;
      assert t[i] == rs[i'] && t[j] == rs[j'];
    }
  }

  /**
   * Two neighbours of a chain merged into one region from the first's start
   * to the second's end: the merged region has no equivalent among the other
   * entries, so re-inserting it always succeeds.
   */
  lemma {:induction false} MergedHasNoEquivalent(rs: seq<Entry>, lo: nat)
    requires Chain(rs) && lo + 1 < |rs|
    ensures !HasEquivalent(ErasePair(rs, lo), Region(rs[lo].region.start, rs[lo + 1].region.end))
  {
    var m := Region(rs[lo].region.start, rs[lo + 1].region.end);
    var t := ErasePair(rs, lo);
    forall i | 0 <= i < |t|
      ensures !Equivalent(t[i].region, m)
    {
      if i < lo {
        assert t[i] == rs[i];
        assert Before(rs[i].region, rs[lo].region) && Before(rs[i].region, rs[lo + 1].region);
        assert Before(t[i].region, m);
      } else {
        assert t[i] == rs[i + 2];
        assert Before(rs[lo].region, rs[i + 2].region) && Before(rs[lo + 1].region, rs[i + 2].region);
        assert Before(m, t[i].region);
      }
    }
  }

  /** The merged region covers both neighbours, and all other entries survive the erasure. */
  lemma {:induction false} MergeSubsumes(rs: seq<Entry>, lo: nat, m: Region, owner: int, t: seq<Entry>)
    requires lo + 1 < |rs| && rs[lo].owner == owner && rs[lo + 1].owner == owner
    requires Contains(m, rs[lo].region) && Contains(m, rs[lo + 1].region)
    requires Subsumes(t, ErasePair(rs, lo)) && Covered(t, m, owner)
    ensures Subsumes(t, rs)
  {
    var e := ErasePair(rs, lo);
    forall i | 0 <= i < |rs|
      ensures Covered(t, rs[i].region, rs[i].owner)
    {
      if i == lo || i == lo + 1 {
        var j :| 0 <= j < |t| && Contains(t[j].region, m) && t[j].owner == owner;
        assert Contains(t[j].region, rs[i].region);
      } else {
        var k := if i < lo then i else i - 2;
        assert e[k] == rs[i];
      }
    }
  }

  lemma {:induction false} SubsumesTransitive(a: seq<Entry>, b: seq<Entry>, c: seq<Entry>)
    requires Subsumes(a, b) && Subsumes(b, c)
    ensures Subsumes(a, c)
  {
    forall i | 0 <= i < |c|
      ensures Covered(a, c[i].region, c[i].owner)
    {
      var j :| 0 <= j < |b| && Contains(b[j].region, c[i].region) && b[j].owner == c[i].owner;
      assert Covered(a, b[j].region, b[j].owner);
      var k :| 0 <= k < |a| && Contains(a[k].region, b[j].region) && a[k].owner == b[j].owner;
      assert Contains(a[k].region, c[i].region);
    }
  }

  lemma {:induction false} OthersSelf(rs: seq<Entry>)
    ensures Others(rs, None, rs)
  {
    forall i | 0 <= i < |rs|
      ensures Kept(rs, i, rs)
    {
    }
  }

  /** Erasing one entry keeps all the others. */
  lemma {:induction false} RemoveKeeps(rs: seq<Entry>, l: nat)
    requires l < |rs|
    ensures Others(rs, Some(l), Remove(rs, l))
  {
    forall i | 0 <= i < |rs| && i != l
      ensures Kept(rs, i, Remove(rs, l))
    {
      assert rs[i] == Remove(rs, l)[if i < l then i else i - 1];
    }
  }

  /** Erasing a pair that includes `l` erases no more than `l` does, besides the pair. */
  lemma {:induction false} ErasePairWithin(a: seq<Entry>, res: Option<nat>, rs: seq<Entry>, lo: nat, l: nat)
    requires lo + 1 < |rs| && (l == lo || l == lo + 1)
    requires Others(a, res, ErasePair(rs, lo))
    ensures Others(a, res, Remove(rs, l))
  {
    forall i | 0 <= i < |a| && res != Some(i)
      ensures Kept(a, i, Remove(rs, l))
    {
      var e := ErasePair(rs, lo);
      assert Kept(a, i, e);
      var k :| 0 <= k < |e| && e[k] == a[i];
      var j := if k < lo then k else k + 2;
      assert e[k] == rs[j];
      assert rs[j] == Remove(rs, l)[if j < l then j else j - 1];
    }
  }

  /** Two steps compose: what the second keeps besides its result came from the first. */
  lemma {:induction false} OthersCompose(a: seq<Entry>, ra: Option<nat>, b: seq<Entry>, r: nat, c: seq<Entry>)
    requires r < |b| && Others(b, Some(r), c) && Others(a, ra, Remove(b, r))
    ensures Others(a, ra, c)
  {
    forall i | 0 <= i < |a| && ra != Some(i)
      ensures Kept(a, i, c)
    {
      var e := Remove(b, r);
      assert Kept(a, i, e);
      var k :| 0 <= k < |e| && e[k] == a[i];
      var j := if k < r then k else k + 1;
      assert e[k] == b[j];
      assert Kept(b, j, c);
    }
  }

  /** Erasing `x` and designating its neighbour `y` keeps exactly the entries other than the pair. */
  lemma {:induction false} ErasedNeighbour(rs: seq<Entry>, x: nat, y: nat)
    requires x < |rs| && y < |rs| && (y == x + 1 || x == y + 1)
    ensures Others(Remove(rs, x), Some(if y < x then y else y - 1), ErasePair(rs, if x < y then x else y))
  {
    var t := Remove(rs, x);
    var lo := if x < y then x else y;
    forall i | 0 <= i < |t| && i != (if y < x then y else y - 1)
      ensures Kept(t, i, ErasePair(rs, lo))
    {
      var j := if i < x then i else i + 1;
      assert t[i] == rs[j];
      assert rs[j] == ErasePair(rs, lo)[if j < lo then j else j - 2];
    }
  }

  /** Erasing the entry `MapInsert` placed gives back the table. */
  lemma {:induction false} RemoveInserted(rs: seq<Entry>, e: Entry)
    ensures Lower(rs, e.region) < |MapInsert(rs, e)|
    ensures Remove(MapInsert(rs, e), Lower(rs, e.region)) == rs
  {
    var n := Lower(rs, e.region);
    var t := MapInsert(rs, e);
    assert t[..n] == rs[..n];
    assert t[n + 1..] == rs[n..];
    assert rs[..n] + rs[n..] == rs;
  }

  lemma {:induction false} SubsumesReflexive(a: seq<Entry>)
    ensures Subsumes(a, a)
  {
    forall i | 0 <= i < |a|
      ensures Covered(a, a[i].region, a[i].owner)
    {
      assert Contains(a[i].region, a[i].region);
    }
  }

  // ---------------------------------------------------------------------
  // The table

  class PageTable {
    /** `Regions_`, in map order. */
    var regions: seq<Entry>

    constructor ()
      ensures regions == []
    {
      regions := [];
    }

    /**
     * `insert(Start, End, Idx)`: a region equivalent to an existing key
     * changes nothing and yields `end()` (None); otherwise the region is
     * added and joined with its neighbours, and the result designates the
     * region that now contains it.
     */
    method Insert(start: int, end: int, idx: int) returns (it: Option<nat>)
      modifies this
      ensures |regions| <= |old(regions)| + 1 && (it.Some? ==> it.value < |regions|)
      ensures HasEquivalent(old(regions), Region(start, end)) ==> it == None && regions == old(regions)
      ensures Chain(old(regions)) && !HasEquivalent(old(regions), Region(start, end)) ==>
        Chain(regions) && it.Some? &&
        Contains(regions[it.value].region, Region(start, end)) && regions[it.value].owner == idx &&
        Subsumes(regions, old(regions))
      ensures Others(regions, it, old(regions))
      decreases |regions| + 1, 3
    {
      var r := Region(start, end);
      if HasEquivalent(regions, r) {
        OthersSelf(regions);
        return None;
      }
      ghost var before := regions;
      var pos := Lower(regions, r);
      regions := MapInsert(regions, Entry(r, idx));
      MapInsertSubsumes(before, Entry(r, idx));
      if Chain(before) {
        MapInsertChain(before, Entry(r, idx));
      }
      ghost var inserted := regions;
      it := Join(pos);
      if Chain(before) {
        SubsumesTransitive(regions, inserted, before);
      }
      RemoveInserted(before, Entry(r, idx));
    }

    /**
     * `join(L)`: join with the successor first, then with the predecessor of
     * the resulting region.
     */
    method Join(l: nat) returns (res: Option<nat>)
      requires l < |regions|
      modifies this
      ensures |regions| <= |old(regions)| && (res.Some? ==> res.value < |regions|)
      ensures Chain(old(regions)) ==>
        Chain(regions) && res.Some? &&
        Contains(regions[res.value].region, old(regions)[l].region) &&
        regions[res.value].owner == old(regions)[l].owner &&
        Subsumes(regions, old(regions))
      ensures Others(regions, res, Remove(old(regions), l))
      decreases |regions|, 2
    {
      ghost var start := regions;
      res := JoinNext(l);
      ghost var mid := regions;
      // When the first join yields `end()` (possible only off a chain), the
      // source goes on to dereference it; the model returns `end()` instead.
      if res.Some? {
        var r := res.value;
        res := JoinPrevious(r);
        OthersCompose(regions, res, mid, r, Remove(start, l));
        if Chain(start) {
          SubsumesTransitive(regions, mid, start);
        }
      }
    }

    /** The first half of `join(L)`: join `L` with its successor, if there is one. */
    method JoinNext(l: nat) returns (res: Option<nat>)
      requires l < |regions|
      modifies this
      ensures |regions| <= |old(regions)| && (res.Some? ==> res.value < |regions|)
      ensures Chain(old(regions)) ==>
        Chain(regions) && res.Some? &&
        Contains(regions[res.value].region, old(regions)[l].region) &&
        regions[res.value].owner == old(regions)[l].owner &&
        Subsumes(regions, old(regions))
      ensures Others(regions, res, Remove(old(regions), l))
      decreases |regions|, 1
    {
      ghost var start := regions;
      RemoveKeeps(regions, l);
      if l + 1 < |regions| {
        res := JoinPair(l, l + 1);
        if start[l].owner == start[l + 1].owner {
          ErasePairWithin(regions, res, start, l, l);
        }
      } else {
        res := Some(l);
        SubsumesReflexive(regions);
      }
    }

    /** The second half of `join(L)`: join `L` with its predecessor, if there is one. */
    method JoinPrevious(l: nat) returns (res: Option<nat>)
      requires l < |regions|
      modifies this
      ensures |regions| <= |old(regions)| && (res.Some? ==> res.value < |regions|)
      ensures Chain(old(regions)) ==>
        Chain(regions) && res.Some? &&
        Contains(regions[res.value].region, old(regions)[l].region) &&
        regions[res.value].owner == old(regions)[l].owner &&
        Subsumes(regions, old(regions))
      ensures Others(regions, res, Remove(old(regions), l))
      decreases |regions|, 1
    {
      ghost var start := regions;
      RemoveKeeps(regions, l);
      if l != 0 {
        res := JoinPair(l, l - 1);
        if start[l].owner == start[l - 1].owner {
          ErasePairWithin(regions, res, start, l - 1, l);
        }
      } else {
        res := Some(l);
        SubsumesReflexive(regions);
      }
    }

    /**
     * `join(L, R)` for neighbours `L` and `R`: different owners are never
     * merged; otherwise the two are replaced by their hull (when one starts
     * and ends no later than the other, whether or not they overlap), or the
     * contained one is erased.  Every merge lowers the number of regions.
     */
    method JoinPair(l: nat, r: nat) returns (res: Option<nat>)
      requires l < |regions| && r < |regions| && (r == l + 1 || l == r + 1)
      modifies this
      ensures |regions| <= |old(regions)| && (res.Some? ==> res.value < |regions|)
      ensures old(regions)[l].owner != old(regions)[r].owner ==> regions == old(regions) && res == Some(l)
      ensures old(regions)[l].owner == old(regions)[r].owner ==> |regions| < |old(regions)|
      ensures Chain(old(regions)) ==>
        Chain(regions) && res.Some? &&
        Contains(regions[res.value].region, old(regions)[l].region) &&
        regions[res.value].owner == old(regions)[l].owner &&
        Subsumes(regions, old(regions))
      ensures Chain(old(regions)) && old(regions)[l].owner == old(regions)[r].owner ==>
        res.Some? && Contains(regions[res.value].region, old(regions)[r].region)
      ensures old(regions)[l].owner == old(regions)[r].owner ==>
        Others(regions, res, ErasePair(old(regions), if l < r then l else r))
      ensures (old(regions)[l].owner == old(regions)[r].owner &&
               StrictlyInside(old(regions)[l].region, old(regions)[r].region)) ==>
        regions == Remove(old(regions), l) && res == Some(if r < l then r else r - 1)
      ensures (old(regions)[l].owner == old(regions)[r].owner &&
               StrictlyInside(old(regions)[r].region, old(regions)[l].region)) ==>
        regions == Remove(old(regions), r) && res == Some(if l < r then l else l - 1)
      decreases |regions|, 0
    {
      var lr, rr := regions[l].region, regions[r].region;
      var owner := regions[l].owner;
      if owner != regions[r].owner {
        return Some(l);
      }
      ghost var before := regions;
      var lo := if l < r then l else r;
      if lr.start <= rr.start && lr.end <= rr.end {
        var m := Region(lr.start, rr.end);
        regions := ErasePair(regions, lo);
        if Chain(before) {
          ErasePairChain(before, lo);
          MergedHasNoEquivalent(before, lo);
          assert l == lo;
        }
        res := Insert(m.start, m.end, owner);
        if Chain(before) {
          MergeSubsumes(before, lo, m, owner, regions);
        }
      } else if rr.start <= lr.start && rr.end <= lr.end {
        var m := Region(rr.start, lr.end);
        regions := ErasePair(regions, lo);
        if Chain(before) {
          ErasePairChain(before, lo);
          MergedHasNoEquivalent(before, lo);
          assert r == lo;
        }
        res := Insert(m.start, m.end, owner);
        if Chain(before) {
          MergeSubsumes(before, lo, m, owner, regions);
        }
      } else if lr.start >= rr.start && lr.end <= rr.end {
        regions := Remove(regions, l);
        res := Some(if r < l then r else r - 1);
        ErasedNeighbour(before, l, r);
      } else if rr.start >= lr.start && rr.end <= lr.end {
        regions := Remove(regions, r);
        res := Some(if l < r then l else l - 1);
        ErasedNeighbour(before, r, l);
      } else {
        // The four cases above cover every pair of intervals: the source's
        // final `return L` is reached only for different owners.
        assert false;
      }
    }
  }
}
