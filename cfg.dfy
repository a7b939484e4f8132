/**
 * The control-flow facts the instrumentation passes read besides the loop
 * forest: the blocks of a function in layout order, the instructions of
 * each block in order, each block's predecessors in `pred_iterator` order,
 * each loop's blocks in `Loop::block_begin` order, block dominance, the
 * unique exit block of a loop (`Loop::getExitBlock`) and the post-order of
 * the dominator tree.
 */
module Cfg {
  import opened Wrappers
  import opened Ir

  datatype Graph = Graph(blocks: seq<nat>, body: map<nat, seq<nat>>, preds: map<nat, seq<nat>>,
                         loopBlocks: map<nat, seq<nat>>, dom: set<(nat, nat)>, exitBlock: map<nat, nat>,
                         postOrder: seq<nat>)

  /** The instructions of block `b`, in order. */
  function Body(g: Graph, b: nat): seq<nat> {
    if b in g.body then g.body[b] else []
  }

  /** The predecessors of block `b`, in `pred_iterator` order. */
  function Preds(g: Graph, b: nat): seq<nat> {
    if b in g.preds then g.preds[b] else []
  }

  /** The blocks of loop `l`, in `Loop::block_begin` order. */
  function LoopBlocks(g: Graph, l: nat): seq<nat> {
    if l in g.loopBlocks then g.loopBlocks[l] else []
  }

  /** `DominatorTree::dominates(A, B)` on blocks, which holds for A == B. */
  predicate Dominates(g: Graph, a: nat, b: nat) {
    a == b || (a, b) in g.dom
  }

  /** `Loop::getExitBlock()`: the unique block outside the loop reached from it, if any. */
  function ExitBlock(g: Graph, l: nat): Option<nat> {
    if l in g.exitBlock then Some(g.exitBlock[l]) else None
  }

  /** How many of `bs` lie in `blocks`. */
  function CountIn(bs: seq<nat>, blocks: set<nat>): (n: nat)
    ensures n <= |bs|
  {
    if bs == [] then 0 else (if bs[0] in blocks then 1 else 0) + CountIn(bs[1..], blocks)
  }

  /** `Loop::getNumBackEdges()`: the predecessors of the header inside the loop. */
  function NumBackEdges(f: Function, g: Graph, l: nat): nat
    requires l in f.loops
  {
    CountIn(Preds(g, f.loops[l].header), f.loops[l].blocks)
  }

  /**
   * The loops the passes instrument: a single back edge and exactly two
   * header predecessors, so one edge enters the loop and one closes it.
   */
  predicate Simple(f: Function, g: Graph, l: nat)
    requires l in f.loops
  {
    NumBackEdges(f, g, l) == 1 && |Preds(g, f.loops[l].header)| == 2
  }

  /** Of the two predecessors of a simple loop's header, exactly one lies in the loop. */
  lemma {:induction false} SimpleSplits(f: Function, g: Graph, l: nat)
    requires l in f.loops && Simple(f, g, l)
    ensures var ps := Preds(g, f.loops[l].header);
      (ps[0] in f.loops[l].blocks) != (ps[1] in f.loops[l].blocks)
  {
    var ps := Preds(g, f.loops[l].header);
    var bs := f.loops[l].blocks;
    assert ps[1..][1..] == [];
    assert CountIn(ps, bs) == (if ps[0] in bs then 1 else 0) + (if ps[1] in bs then 1 else 0) + CountIn(ps[1..][1..], bs);
  }
}
