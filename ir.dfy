/**
 * The slice of an LLVM function the loop analyses look at: values by
 * address, the instructions among them (opcode, operands, parent block and,
 * for a phi, the incoming blocks), the loop forest with the facts LLVM's
 * `Loop` answers (header, latch, preheader, parent, unique exiting block,
 * blocks, depth), the innermost loop of each block and each block's
 * terminator.  The IR itself is built elsewhere and only read here.
 */
module Ir {
  import opened Wrappers
  import opened Intern

  /** The integer predicates of `icmp`. */
  datatype Predicate = EQ | NE | UGT | UGE | ULT | ULE | SGT | SGE | SLT | SLE

  predicate IsSignedPredicate(p: Predicate) {
    p.SGT? || p.SGE? || p.SLT? || p.SLE?
  }

  /** The predicates whose bound is reached by the last iteration. */
  predicate IsInclusive(p: Predicate) {
    p.UGE? || p.ULE? || p.SGE? || p.SLE?
  }

  /** The eight order comparisons. */
  predicate IsOrdered(p: Predicate) {
    !p.EQ? && !p.NE?
  }

  /** The opcodes the analyses tell apart; every other one is `OpOther`. */
  datatype Opcode =
    | OpAdd | OpSub | OpMul | OpSDiv | OpUDiv
    | OpSExt | OpZExt | OpTrunc
    | OpPhi
    | OpICmp(pred: Predicate)
    | OpBr
    | OpLoad | OpStore | OpGep
    | OpOther

  /**
   * An instruction: operands by address; for a phi, `incomingBlocks[k]` is
   * the block operand `k` flows in from.  A conditional branch has its
   * condition as its only operand, an unconditional one has none; a store
   * has the stored value then the pointer.
   */
  datatype Inst = Inst(op: Opcode, operands: seq<nat>, block: nat, incomingBlocks: seq<nat>)

  /**
   * A natural loop.  `latch` and `preheader` are None where LLVM answers
   * null (several latches, no dedicated preheader); `exiting` is
   * `getExitingBlock()`, None unless exactly one block leaves the loop.
   */
  datatype Loop = Loop(header: nat, latch: Option<nat>, preheader: Option<nat>, parent: Option<nat>,
                       exiting: Option<nat>, blocks: set<nat>, depth: nat)

  /**
   * A function.  `loopOf` is `LoopInfo::getLoopFor` (blocks outside every
   * loop are absent); `rank` is a position of each value in an order in
   * which every operand read by the analyses comes first, which SSA form
   * provides once the phis of loop headers are cut.
   */
  datatype Function = Function(values: map<nat, Value>, insts: map<nat, Inst>, loops: map<nat, Loop>,
                               loopOf: map<nat, nat>, terminator: map<nat, nat>, rank: map<nat, nat>)

  /** `LoopInfo::isLoopHeader`. */
  predicate IsHeader(f: Function, b: nat) {
    b in f.loopOf && f.loopOf[b] in f.loops && f.loops[f.loopOf[b]].header == b
  }

  predicate Arity(i: Inst) {
    match i.op
    case OpAdd => |i.operands| == 2
    case OpSub => |i.operands| == 2
    case OpMul => |i.operands| == 2
    case OpSDiv => |i.operands| == 2
    case OpUDiv => |i.operands| == 2
    case OpICmp(_) => |i.operands| == 2
    case OpSExt => |i.operands| == 1
    case OpZExt => |i.operands| == 1
    case OpTrunc => |i.operands| == 1
    case OpLoad => |i.operands| == 1
    case OpStore => |i.operands| == 2
    case OpGep => |i.operands| >= 1
    case OpBr => |i.operands| <= 1
    case OpPhi => |i.operands| == |i.incomingBlocks| >= 1
    case OpOther => true
  }

  /** The operands of `p` are ranked below it, unless `p` is a phi of a loop header. */
  predicate Ranked(f: Function, p: nat)
    requires p in f.insts && p in f.rank
  {
    var i := f.insts[p];
    !(i.op.OpPhi? && IsHeader(f, i.block)) ==>
      forall k :: 0 <= k < |i.operands| ==> i.operands[k] in f.rank && f.rank[i.operands[k]] < f.rank[p]
  }

  predicate ValuesWellFormed(f: Function) {
    (forall p :: p in f.values ==> f.values[p].ptr == p && WellTyped(f.values[p]) && p in f.rank) &&
    (forall p :: p in f.insts ==> p in f.values && f.values[p].kind.Instruction?)
  }

  predicate InstsWellFormed(f: Function)
    requires ValuesWellFormed(f)
  {
    forall p :: p in f.insts ==>
      Arity(f.insts[p]) && Ranked(f, p) &&
      forall k :: 0 <= k < |f.insts[p].operands| ==> f.insts[p].operands[k] in f.values
  }

  /**
   * Parents are shallower and contain their children; a header's innermost
   * loop is the loop it heads; `loopOf` names a loop containing the block.
   */
  predicate LoopsWellFormed(f: Function) {
    (forall l :: l in f.loops && f.loops[l].parent.Some? ==>
       var q := f.loops[l].parent.value;
       q in f.loops && f.loops[q].depth < f.loops[l].depth && f.loops[l].blocks <= f.loops[q].blocks) &&
    (forall l :: l in f.loops ==>
       f.loops[l].header in f.loops[l].blocks && f.loops[l].header in f.loopOf && f.loopOf[f.loops[l].header] == l) &&
    (forall b :: b in f.loopOf ==> f.loopOf[b] in f.loops && b in f.loops[f.loopOf[b]].blocks)
  }

  predicate WellFormed(f: Function) {
    ValuesWellFormed(f) && InstsWellFormed(f) && LoopsWellFormed(f) &&
    (forall b :: b in f.terminator ==> f.terminator[b] in f.insts)
  }

  /** `Loop::isLoopInvariant(V)`: not an instruction, or an instruction outside the loop. */
  predicate Invariant(f: Function, l: nat, p: nat)
    requires l in f.loops
  {
    p in f.insts ==> f.insts[p].block !in f.loops[l].blocks
  }

  predicate IsPhi(f: Function, p: nat) {
    p in f.insts && f.insts[p].op.OpPhi?
  }

  /** The outermost loop enclosing `l` (the source walks `getParentLoop` up). */
  function Outermost(f: Function, l: nat): (r: nat)
    requires LoopsWellFormed(f) && l in f.loops
    ensures r in f.loops && f.loops[r].parent.None?
    ensures f.loops[l].blocks <= f.loops[r].blocks
    decreases f.loops[l].depth
  {
    match f.loops[l].parent
    case None => l
    case Some(q) => Outermost(f, q)
  }

  /** Follows the parent links from `l` until it reaches a loop that has no parent. */
  method FindToplevel(f: Function, l: nat) returns (top: nat)
    requires LoopsWellFormed(f) && l in f.loops
    ensures top == Outermost(f, l)
  {
    top := l;
    while f.loops[top].parent.Some?
      invariant top in f.loops && Outermost(f, top) == Outermost(f, l)
      decreases f.loops[top].depth
    {
      top := f.loops[top].parent.value;
    }
  }
}
