/**
 * The trip-count profiler's runtime library: a singly linked list of
 * per-loop statistics, keyed by the loop header's address.  Prediction
 * accuracy is kept exactly, as a real; `accurate` is the ghost count of
 * instances whose prediction was within one iteration.
 */
module TcProfiler {
  /** An instance is accurate iff the actual and the estimated trip count differ by at most one. */
  predicate IsAccurate(tripCount: int, estimated: int) {
    -1 <= tripCount - estimated <= 1
  }

  /** The accuracy an instance contributes to the running mean. */
  function InstanceAccuracy(tripCount: int, estimated: int): (r: real)
    ensures r == 1.0 || r == 0.0
    ensures r == 1.0 <==> IsAccurate(tripCount, estimated)
  {
    if IsAccurate(tripCount, estimated) then 1.0 else 0.0
  }

  /** Fraction of accurate instances; 1.0 before the first instance. */
  function Accuracy(accurate: nat, instances: nat): real {
    if instances == 0 then 1.0 else accurate as real / instances as real
  }

  /** The running-mean update of `addInstance` keeps the accuracy at accurate / instances. */
  lemma {:induction false} RunningMean(accurate: nat, instances: nat, inst: real)
    requires accurate <= instances && (inst == 0.0 || inst == 1.0)
    ensures (instances as real * Accuracy(accurate, instances) + inst) / (instances as real + 1.0)
            == Accuracy(accurate + (if inst == 1.0 then 1 else 0), instances + 1)
  {
    if instances > 0 {
      var n := instances as real;
      assert n * (accurate as real / n) == accurate as real;
    }
  }

  /** The abstract value of one list node. */
  datatype Stat = Stat(id: int, loopClass: int, numInstances: nat, accuracy: real)

  class LoopStats {
    var next: LoopStats?
    var id: int
    var loopClass: int
    var numInstances: nat
    var predictionAccuracy: real
    ghost var accurate: nat

    ghost predicate Valid()
      reads this
    {
      accurate <= numInstances && predictionAccuracy == Accuracy(accurate, numInstances)
    }

    function View(): Stat
      reads this
    {
      Stat(id, loopClass, numInstances, predictionAccuracy)
    }

    /** `createLoopStats`: the given ID and class, no instances, accuracy 1.0, no successor. */
    constructor (newId: int, cls: int)
      ensures Valid() && next == null && accurate == 0
      ensures View() == Stat(newId, cls, 0, 1.0)
    {
      id := newId;
      loopClass := cls;
      numInstances := 0;
      predictionAccuracy := 1.0;
      next := null;
      accurate := 0;
    }

    /** `addInstance`: one more instance, and the accuracy becomes the new running mean. */
    method AddInstance(tripCount: int, estimated: int)
      requires Valid()
      modifies this
      ensures Valid() && next == old(next) && id == old(id) && loopClass == old(loopClass)
      ensures numInstances == old(numInstances) + 1
      ensures accurate == old(accurate) + (if IsAccurate(tripCount, estimated) then 1 else 0)
    {
      var inst := InstanceAccuracy(tripCount, estimated);
      RunningMean(accurate, numInstances, inst);
      predictionAccuracy := (numInstances as real * predictionAccuracy + inst) / (numInstances as real + 1.0);
      numInstances := numInstances + 1;
      accurate := accurate + (if inst == 1.0 then 1 else 0);
    }
  }

  /** No ID occurs twice. */
  predicate DistinctIds(s: seq<Stat>) {
    forall i, j :: 0 <= i < j < |s| ==> s[i].id != s[j].id
  }

  class LoopList {
    var first: LoopStats?
    /** The nodes reachable from `first`, in list order. */
    ghost var nodes: seq<LoopStats>

    ghost predicate Valid()
      reads this, nodes
    {
      (first == null <==> nodes == []) &&
      (nodes != [] ==> first == nodes[0] && nodes[|nodes| - 1].next == null) &&
      (forall i :: 0 <= i < |nodes| - 1 ==> nodes[i].next == nodes[i + 1]) &&
      (forall i :: 0 <= i < |nodes| ==> nodes[i].Valid()) &&
      (forall i, j :: 0 <= i < j < |nodes| ==> nodes[i].id != nodes[j].id)
    }

    /** The statistics, in list order. */
    ghost function View(): (s: seq<Stat>)
      reads this, nodes
      ensures |s| == |nodes|
    {
      seq(|nodes|, i reads this, nodes requires 0 <= i < |nodes| => nodes[i].View())
    }

    /** `initLoopList`: the list starts empty. */
    constructor ()
      ensures Valid() && first == null && View() == []
    {
      first := null;
      nodes := [];
    }

    /**
     * The search loop of `getOrInsertLoop`: the position `k` of the first node
     * with a matching ID (`|nodes|` when there is none), that node, and the
     * node before it.
     */
    method Find(id: int) returns (current: LoopStats?, last: LoopStats?, ghost k: nat)
      requires Valid()
      ensures k <= |nodes| && forall i :: 0 <= i < k ==> nodes[i].id != id
      ensures current == (if k < |nodes| then nodes[k] else null)
      ensures current != null ==> current.id == id
      ensures last == (if k == 0 then null else nodes[k - 1])
    {
      current := first;
      last := null;
      k := 0;
      while current != null
        invariant k <= |nodes|
        invariant current == (if k < |nodes| then nodes[k] else null)
        invariant last == (if k == 0 then null else nodes[k - 1])
        invariant forall i :: 0 <= i < k ==> nodes[i].id != id
        decreases |nodes| - k
      {
        if current.id == id {
          return;
        }
        last := current;
        current := current.next;
        k := k + 1;
      }
    }

    /**
     * `getOrInsertLoop`: the first node with a matching ID, with the list
     * unchanged; otherwise a fresh node `(ID, LoopClass, 0, 1.0)` appended at
     * the tail (or made `first` when the list is empty).
     */
    method GetOrInsert(id: int, cls: int) returns (n: LoopStats, ghost k: nat)
      requires Valid()
      modifies this, nodes
      ensures Valid() && k <= |old(nodes)| && k < |nodes| && n == nodes[k] && n.id == id
      ensures forall i :: 0 <= i < k ==> nodes[i].id != id
      ensures k < |old(nodes)| ==> nodes == old(nodes) && View() == old(View())
      ensures k == |old(nodes)| ==> fresh(n) && n.accurate == 0 && n.View() == Stat(id, cls, 0, 1.0)
      ensures k == |old(nodes)| ==> nodes == old(nodes) + [n]
      ensures k == |old(nodes)| ==> View() == old(View()) + [Stat(id, cls, 0, 1.0)]
      ensures forall i :: 0 <= i < |old(nodes)| ==>
        nodes[i].accurate == old(nodes[i].accurate) && nodes[i].View() == old(nodes[i].View())
    {
      var current, last;
      current, last, k := Find(id);
      if current != null {
        return current, k;
      }
      n := Append(last, id, cls);
    }

    /** The insertion half of `getOrInsertLoop`: link a new node after `last`, the tail. */
    method Append(last: LoopStats?, id: int, cls: int) returns (n: LoopStats)
      requires Valid() && last == (if nodes == [] then null else nodes[|nodes| - 1])
      requires forall i :: 0 <= i < |nodes| ==> nodes[i].id != id
      modifies this, last
      ensures Valid() && |nodes| == |old(nodes)| + 1 && nodes[..|old(nodes)|] == old(nodes)
      ensures fresh(n) && n == nodes[|old(nodes)|] && n.accurate == 0 && n.View() == Stat(id, cls, 0, 1.0)
      ensures View() == old(View()) + [Stat(id, cls, 0, 1.0)]
      ensures forall i :: 0 <= i < |old(nodes)| ==>
        nodes[i].accurate == old(nodes[i].accurate) && nodes[i].View() == old(nodes[i].View())
    {
      ghost var before := View();
      n := new LoopStats(id, cls);
      if last != null {
        last.next := n;
      } else {
        first := n;
      }
      nodes := nodes + [n];
      assert forall i :: 0 <= i < |before| ==> View()[i] == before[i];
    }

    /**
     * `collectLoopData`: record one execution of the loop with header `id` in
     * the node at position `k`, found or appended by `GetOrInsert`.  The other
     * nodes, and the found node's class, do not change.
     */
    method CollectLoopData(id: int, tripCount: int, estimated: int, cls: int) returns (ghost k: nat)
      requires Valid()
      modifies this, nodes
      ensures Valid() && k <= |old(nodes)| && k < |nodes|
      ensures forall i :: 0 <= i < k ==> nodes[i].id != id
      ensures nodes == old(nodes) || (k == |old(nodes)| && nodes[..k] == old(nodes))
      ensures forall i :: 0 <= i < |old(nodes)| && i != k ==> nodes[i].View() == old(nodes[i].View())
      ensures nodes[k].id == id && (k < |old(nodes)| ==> old(nodes[k].id) == id)
      ensures nodes[k].loopClass == (if k < |old(nodes)| then old(nodes[k].loopClass) else cls)
      ensures nodes[k].numInstances == (if k < |old(nodes)| then old(nodes[k].numInstances) else 0) + 1
      ensures nodes[k].accurate == (if k < |old(nodes)| then old(nodes[k].accurate) else 0) +
          (if IsAccurate(tripCount, estimated) then 1 else 0)
    {
      var n;
      n, k := GetOrInsert(id, cls);
      n.AddInstance(tripCount, estimated);
      assert forall i :: 0 <= i < |nodes| && i != k ==> nodes[i] != n;
    }

    /** `freeList`: the list is emptied and `first` becomes null. */
    method FreeList()
      modifies this
      ensures Valid() && first == null && View() == []
    {
      first := null;
      nodes := [];
    }
  }
}
