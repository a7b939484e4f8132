/**
 * The loop-structure statistics pass: the set difference `getDelta` and the
 * per-SCC path-count census taken over the dependence-graph nodes that a
 * backward walk from a loop's exit condition newly visits.  Graph nodes are
 * of an unspecified type `N` and SCCs are identified by integers; the SCC of a node, the size of an SCC and
 * its number of acyclic paths come from the dependence graph, whose code is
 * not part of this model, and are parameters here.
 */
module LoopStructure {
  /**
   * `getDelta(t1, t2)`: the elements of `t1` not in `t2`, collected one at a
   * time as the source's loop over `t1` does.
   */
  method GetDelta<T>(t1: set<T>, t2: set<T>) returns (result: set<T>)
    ensures result == t1 - t2
    ensures result <= t1 && result !! t2
  {
    result := {};
    var rest := t1;
    while rest != {}
      invariant rest <= t1
      invariant result == (t1 - rest) - t2
      decreases rest
    {
      var item :| item in rest;
      if item !in t2 {
        result := result + {item};
      }
      rest := rest - {item};
    }
  }

  /** The statistics counter a path count goes to. */
  datatype Bucket = OnePath | TwoPaths | ThreePaths | FourPaths | FivePaths | ThousandPlus | NotCounted

  /** Counts 1 to 5 have their own counters, counts above 999 share one, others are not counted. */
  function BucketOf(paths: nat): (b: Bucket)
    ensures b == NotCounted <==> paths == 0 || 6 <= paths <= 999
    ensures b == ThousandPlus <==> paths > 999
  {
    match paths
    case 1 => OnePath
    case 2 => TwoPaths
    case 3 => ThreePaths
    case 4 => FourPaths
    case 5 => FivePaths
    case _ => if paths > 999 then ThousandPlus else NotCounted
  }

  /** The SCCs with more than one node among those of `nodes`. */
  function CyclicSccs<N>(nodes: set<N>, scc: N -> int, size: int -> nat): set<int> {
    set n | n in nodes && size(scc(n)) > 1 :: scc(n)
  }

  /** Number of SCCs of `ids` whose path count falls in bucket `b`. */
  function Tally(ids: set<int>, paths: int -> nat, b: Bucket): nat {
    |set id | id in ids && BucketOf(paths(id)) == b|
  }

  lemma {:induction false} TallyAdd(ids: set<int>, x: int, paths: int -> nat, b: Bucket)
    requires x !in ids
    ensures Tally(ids + {x}, paths, b) == Tally(ids, paths, b) + (if BucketOf(paths(x)) == b then 1 else 0)
  {
    var before := set id | id in ids && BucketOf(paths(id)) == b;
    var after := set id | id in ids + {x} && BucketOf(paths(id)) == b;
    if BucketOf(paths(x)) == b {
      assert after == before + {x};
    } else {
      assert after == before;
    }
  }

  lemma {:induction false} TallyAddAll(ids: set<int>, x: int, paths: int -> nat)
    requires x !in ids
    ensures forall b :: Tally(ids + {x}, paths, b) == Tally(ids, paths, b) + (if BucketOf(paths(x)) == b then 1 else 0)
  {
    forall b ensures Tally(ids + {x}, paths, b) == Tally(ids, paths, b) + (if BucketOf(paths(x)) == b then 1 else 0) {
      TallyAdd(ids, x, paths, b);
    }
  }

  /** The pass's running state: the SCCs already analysed and the statistics counters. */
  class SccCensus {
    var analyzedSCCs: set<int>
    var numAnalyzed: nat
    var numSingle: nat
    var numTwo: nat
    var numThree: nat
    var numFour: nat
    var numFive: nat
    var numThousandPlus: nat

    /** The counter of a bucket (0 for the uncounted one). */
    function Counter(b: Bucket): nat
      reads this
    {
      match b
      case OnePath => numSingle
      case TwoPaths => numTwo
      case ThreePaths => numThree
      case FourPaths => numFour
      case FivePaths => numFive
      case ThousandPlus => numThousandPlus
      case NotCounted => 0
    }

    /** Each analysed SCC was counted once: the analysed counter is the size of the set. */
    ghost predicate Valid()
      reads this
    {
      numAnalyzed == |analyzedSCCs|
    }

    constructor ()
      ensures Valid() && analyzedSCCs == {}
      ensures forall b :: Counter(b) == 0
    {
      analyzedSCCs := {};
      numAnalyzed, numSingle, numTwo, numThree, numFour, numFive, numThousandPlus := 0, 0, 0, 0, 0, 0, 0;
    }

    /** Increment the counter of bucket `b`. */
    method Count(b: Bucket)
      modifies this
      ensures analyzedSCCs == old(analyzedSCCs) && numAnalyzed == old(numAnalyzed)
      ensures forall c :: Counter(c) == old(Counter(c)) + (if c == b && b != NotCounted then 1 else 0)
    {
      match b
      case OnePath => numSingle := numSingle + 1;
      case TwoPaths => numTwo := numTwo + 1;
      case ThreePaths => numThree := numThree + 1;
      case FourPaths => numFour := numFour + 1;
      case FivePaths => numFive := numFive + 1;
      case ThousandPlus => numThousandPlus := numThousandPlus + 1;
      case NotCounted =>
    }

    /**
     * One node of the delta: a multi-node SCC not analysed before becomes
     * analysed and its path count is counted in its bucket.
     */
    method AnalyzeScc(id: int, size: int -> nat, paths: int -> nat, ghost a0: set<int>, ghost c0: imap<Bucket, nat>)
      requires Valid() && a0 <= analyzedSCCs
      requires forall b :: b != NotCounted ==> b in c0 && Counter(b) == c0[b] + Tally(analyzedSCCs - a0, paths, b)
      modifies this
      ensures Valid()
      ensures analyzedSCCs == old(analyzedSCCs) + (if size(id) > 1 then {id} else {})
      ensures forall b :: b != NotCounted ==> b in c0 && Counter(b) == c0[b] + Tally(analyzedSCCs - a0, paths, b)
    {
      if size(id) > 1 && id !in analyzedSCCs {
        ghost var t := analyzedSCCs - a0;
        TallyAddAll(t, id, paths);
        assert analyzedSCCs + {id} - a0 == t + {id};
        analyzedSCCs := analyzedSCCs + {id};
        numAnalyzed := numAnalyzed + 1;
        Count(BucketOf(paths(id)));
      }
    }

    /**
     * The loop over the delta of one exit condition: every node of a
     * multi-node SCC not analysed before makes that SCC analysed and counts
     * its paths in their bucket.  An SCC is analysed at most once.
     */
    method AnalyzeDelta<N>(delta: set<N>, scc: N -> int, size: int -> nat, paths: int -> nat)
      requires Valid()
      modifies this
      ensures Valid()
      ensures analyzedSCCs == old(analyzedSCCs) + CyclicSccs(delta, scc, size)
      ensures forall b :: b != NotCounted ==>
        Counter(b) == old(Counter(b)) + Tally(analyzedSCCs - old(analyzedSCCs), paths, b)
    {
      var rest := delta;
      ghost var a0 := analyzedSCCs;
      ghost var c0 := imap b: Bucket :: Counter(b);
      assert analyzedSCCs - a0 == {};
      while rest != {}
        invariant Valid() && rest <= delta && a0 <= analyzedSCCs
        invariant analyzedSCCs == a0 + CyclicSccs(delta - rest, scc, size)
        invariant forall b :: b != NotCounted ==> b in c0 && Counter(b) == c0[b] + Tally(analyzedSCCs - a0, paths, b)
        decreases rest
      {
        var node :| node in rest;
        CyclicSccsStep(a0, analyzedSCCs, delta, rest, node, scc, size);
        AnalyzeScc(scc(node), size, paths, a0, c0);
        rest := rest - {node};
      }
      assert delta - rest == delta;
    }
  }

  /** Taking one more node of the delta adds its SCC when that SCC has more than one node. */
  lemma {:induction false} CyclicSccsStep<N>(a0: set<int>, acc: set<int>, delta: set<N>, rest: set<N>, node: N,
                                             scc: N -> int, size: int -> nat)
    requires node in rest && rest <= delta
    requires acc == a0 + CyclicSccs(delta - rest, scc, size)
    ensures acc + (if size(scc(node)) > 1 then {scc(node)} else {}) == a0 + CyclicSccs(delta - (rest - {node}), scc, size)
  {
    assert delta - (rest - {node}) == (delta - rest) + {node};
  }
}
