/**
 * The Reuse pass: for each simple loop with a known trip count and each
 * phi of its header, a step function of the phi (the latch value in terms
 * of the phi and loop-invariant values), its composition over the trip
 * count, the runtime function `__pact_reuse_{add,sub,mul}` chosen by the
 * step's shape, and for each two-operand GEP of the loop whose subscript
 * depends on the phi a call carrying the array, the subscripts at the first
 * and last iteration, the step and the multiplier of the enclosing loops.
 */
module Reuse {
  import opened Wrappers
  import opened SymExpr
  import opened Intern
  import opened Ir
  import opened LoopInfo
  import opened Cfg

  // ---------------------------------------------------------------------
  // genExprFromUntil
  // ---------------------------------------------------------------------

  /**
   * `genExprFromUntil(From, Until, L)`: the phi `until` itself is its
   * symbol; a loop-invariant value is an atom; an instruction in the
   * phi's block or in a block dominating it (the walk went past the phi)
   * is Invalid; add, sub and mul are the symbolic operators on their
   * operands' expressions, sext and zext are transparent and every other
   * opcode is Invalid.
   */
  function GenExprFromUntil(f: Function, g: Graph, from: nat, until: nat, l: nat): Expr
    requires WellFormed(f) && from in f.values && IsPhi(f, until) && l in f.loops
    decreases f.rank[from]
  {
    if from == until then AtomOf(f, until)
    else if Invariant(f, l, from) then AtomOf(f, from)
    else if from !in f.insts then Invalid  // never taken: a non-instruction is invariant
    else
      var i := f.insts[from];
      var untilBlock := f.insts[until].block;
      if (i.block == untilBlock && i.op.OpPhi?) || Dominates(g, i.block, untilBlock) then Invalid
      else
        assert Arity(i) && Ranked(f, from);
        match i.op
        case OpAdd => Plus(GenExprFromUntil(f, g, i.operands[0], until, l), GenExprFromUntil(f, g, i.operands[1], until, l))
        case OpSub => Minus(GenExprFromUntil(f, g, i.operands[0], until, l), GenExprFromUntil(f, g, i.operands[1], until, l))
        case OpMul => Times(GenExprFromUntil(f, g, i.operands[0], until, l), GenExprFromUntil(f, g, i.operands[1], until, l))
        case OpSExt => GenExprFromUntil(f, g, i.operands[0], until, l)
        case OpZExt => GenExprFromUntil(f, g, i.operands[0], until, l)
        case _ => Invalid
  }

  /**
   * The generated expression denotes the value: in every consistent
   * execution snapshot it is Invalid, or it is free of Invalid and
   * evaluates to the value of `from`, the phi standing for its own value.
   */
  lemma {:induction false} GenSound(f: Function, g: Graph, from: nat, until: nat, l: nat, env: nat -> real)
    requires WellFormed(f) && from in f.values && IsPhi(f, until) && l in f.loops && Consistent(f, env)
    ensures var e := GenExprFromUntil(f, g, from, until, l);
      e == Invalid || (Clean(e) && Eval(e, SymEnv(env)) == env(from))
    decreases f.rank[from]
  {
    if from == until || Invariant(f, l, from) {
      AtomMeaning(f, from, env);
      return;
    }
    var i := f.insts[from];
    var untilBlock := f.insts[until].block;
    if (i.block == untilBlock && i.op.OpPhi?) || Dominates(g, i.block, untilBlock) {
      return;
    }
    assert Arity(i) && Ranked(f, from) && Holds(f, from, env);
    if i.op.OpAdd? || i.op.OpSub? || i.op.OpMul? {
      GenSound(f, g, i.operands[0], until, l, env);
      GenSound(f, g, i.operands[1], until, l, env);
      var a := GenExprFromUntil(f, g, i.operands[0], until, l);
      var b := GenExprFromUntil(f, g, i.operands[1], until, l);
      assert GenExprFromUntil(f, g, from, until, l) == Combine(i.op, a, b);
      BinaryStep(i.op, a, b, SymEnv(env), env(i.operands[0]), env(i.operands[1]), env(from));
    } else if i.op.OpSExt? || i.op.OpZExt? {
      GenSound(f, g, i.operands[0], until, l, env);
    }
  }

  // ---------------------------------------------------------------------
  // composeLoopExpr
  // ---------------------------------------------------------------------

  /**
   * `composeLoopExpr(Ex, Indvar, Start, Times)`: a step function matching
   * `Indvar + W` becomes `Indvar + W * Times`; any other shape is Invalid.
   */
  function ComposeLoopExpr(ex: Expr, p: Symbol, times: Expr): Expr {
    match MatchAddWild(ex, Sym(p))
    case Some(w) => Plus(Sym(p), Times(w, times))
    case None => Invalid
  }

  /** The step function as a map on the phi's value, the other symbols as in `env`. */
  function StepOf(ex: Expr, p: Symbol, env: Symbol -> real): real -> real {
    (x: real) => Eval(ex, Bind(env, p, x))
  }

  /** `step` applied `n` times to `x`. */
  function Iterate(step: real -> real, n: nat, x: real): real {
    if n == 0 then x else Iterate(step, n - 1, step(x))
  }

  /** Iterating a translation by `c` moves by `n * c`. */
  lemma {:induction false} IterateShift(step: real -> real, c: real, n: nat, x: real)
    requires forall y :: step(y) == y + c
    ensures Iterate(step, n, x) == x + (n as real) * c
  {
    if n > 0 {
      IterateShift(step, c, n - 1, x + c);
    }
  }

  /** What a `p + Wild` match binds is free of Invalid when the sum is. */
  lemma {:induction false} CleanMatchAddWild(ex: Expr, p: Expr)
    requires Clean(ex) && MatchAddWild(ex, p).Some?
    ensures Clean(MatchAddWild(ex, p).value)
  {
    var rest := RemoveAt(ex.terms, IndexOf(ex.terms, p));
    assert AllClean(rest) by {
      forall k | 0 <= k < |rest| ensures Clean(rest[k]) {
        var i := IndexOf(ex.terms, p);
        if k < i { assert rest[k] == ex.terms[k]; } else { assert rest[k] == ex.terms[k + 1]; }
      }
    }
    if |rest| == 1 {
      assert Clean(rest[0]);
    }
  }

  /** An expression that does not have the symbol `p` does not read it. */
  lemma {:induction false} IgnoresBinding(e: Expr, p: Symbol, env: Symbol -> real, x: real)
    requires !Has(e, Sym(p))
    ensures Eval(e, Bind(env, p, x)) == Eval(e, env)
  {
    SymbolsHas(e, p);
    EvalAgree(e, Bind(env, p, x), env);
  }

  /** A step function `p + w`, with `w` free of `p`, translates the phi's value by the value of `w`. */
  lemma {:induction false} StepTranslates(ex: Expr, p: Symbol, env: Symbol -> real)
    requires MatchAddWild(ex, Sym(p)).Some? && !Has(MatchAddWild(ex, Sym(p)).value, Sym(p))
    ensures forall y :: StepOf(ex, p, env)(y) == y + Eval(MatchAddWild(ex, Sym(p)).value, env)
  {
    var w := MatchAddWild(ex, Sym(p)).value;
    forall y ensures StepOf(ex, p, env)(y) == y + Eval(w, env) {
      MatchAddWildSound(ex, Sym(p), Bind(env, p, y));
      IgnoresBinding(w, p, env, y);
    }
  }

  /**
   * The composition is the step function iterated `n` times, `n` being the
   * value of `times`: provided neither the step binding `W` nor `times`
   * mentions the phi (which the source leaves as a TODO), evaluating
   * `p + W * times` with the phi at `x` gives the phi's value after `n`
   * iterations from `x`.
   */
  lemma {:induction false} ComposeSound(ex: Expr, p: Symbol, times: Expr, env: Symbol -> real, n: nat, x: real)
    requires Clean(ex) && Clean(times) && p.Bound?
    requires MatchAddWild(ex, Sym(p)).Some? && !Has(MatchAddWild(ex, Sym(p)).value, Sym(p))
    requires !Has(times, Sym(p)) && Eval(times, env) == n as real
    ensures Clean(ComposeLoopExpr(ex, p, times))
    ensures Eval(ComposeLoopExpr(ex, p, times), Bind(env, p, x)) == Iterate(StepOf(ex, p, env), n, x)
  {
    var w := MatchAddWild(ex, Sym(p)).value;
    var b := Bind(env, p, x);
    CleanMatchAddWild(ex, Sym(p));
    CleanIsValid(w);
    CleanIsValid(times);
    CleanTimes(w, times);
    CleanIsValid(Times(w, times));
    CleanPlus(Sym(p), Times(w, times));
    PlusSound(Sym(p), Times(w, times), b);
    TimesSound(w, times, b);
    IgnoresBinding(w, p, env, x);
    IgnoresBinding(times, p, env, x);
    var c := Eval(w, env);
    StepTranslates(ex, p, env);
    IterateShift(StepOf(ex, p, env), c, n, x);
  }

  /**
   * A composition that is not of the `Indvar + W` shape is Invalid, so the
   * phi is skipped.
   */
  lemma {:induction false} ComposeNeedsAddShape(ex: Expr, p: Symbol, times: Expr)
    requires MatchAddWild(ex, Sym(p)).None?
    ensures ComposeLoopExpr(ex, p, times) == Invalid
  {
  }

  // ---------------------------------------------------------------------
  // The runtime function
  // ---------------------------------------------------------------------

  datatype ReuseFn = PactAdd | PactSub | PactMul

  /**
   * The first of `Indvar + W`, `Indvar - W`, `Indvar * W` that the step
   * function matches, with the binding of `W`; None when none does.
   * With this matcher a `Indvar - W` match is also a `Indvar + W` match, so
   * `__pact_reuse_sub` is never chosen, and `__pact_reuse_mul` only for a
   * step whose composition is Invalid (see `OnlyAddReached`).
   */
  function ChooseReuseFn(ex: Expr, p: Symbol): (r: Option<(ReuseFn, Expr)>)
    ensures r.Some? ==> r.value.0 != PactSub
    ensures r.Some? && r.value.0 == PactAdd <==> MatchAddWild(ex, Sym(p)).Some?
    ensures r.Some? && r.value.0 == PactAdd ==> r.value.1 == MatchAddWild(ex, Sym(p)).value
  {
    if MatchAddWild(ex, Sym(p)).Some? then Some((PactAdd, MatchAddWild(ex, Sym(p)).value))
    else match MatchSubWild(ex, Sym(p))
      case Some(w) => Some((PactSub, w))
      case None =>
        match MatchMulWild(ex, Sym(p))
        case Some(w) => Some((PactMul, w))
        case None => None
  }

  /**
   * Whenever the composition is valid (the phi was not skipped), the
   * runtime function is `__pact_reuse_add` and its step is the binding
   * composed over the trip count.
   */
  lemma {:induction false} OnlyAddReached(ex: Expr, p: Symbol, times: Expr)
    requires IsValid(ComposeLoopExpr(ex, p, times))
    ensures ChooseReuseFn(ex, p) == Some((PactAdd, MatchAddWild(ex, Sym(p)).value))
  {
    if MatchAddWild(ex, Sym(p)).None? {
      ComposeNeedsAddShape(ex, p, times);
    }
  }

  // ---------------------------------------------------------------------
  // The multiplier
  // ---------------------------------------------------------------------

  /** `l` and its ancestors, innermost first, ending with the outermost loop. */
  function Ancestors(f: Function, l: nat): (r: seq<nat>)
    requires LoopsWellFormed(f) && l in f.loops
    ensures |r| >= 1 && r[0] == l && r[|r| - 1] == Outermost(f, l)
    ensures forall k :: 0 <= k < |r| ==> r[k] in f.loops
    ensures forall k :: 0 <= k < |r| - 1 ==> f.loops[r[k]].parent == Some(r[k + 1])
    decreases f.loops[l].depth
  {
    match f.loops[l].parent
    case None => [l]
    case Some(q) => [l] + Ancestors(f, q)
  }

  /**
   * The factors of the multiplier, in multiplication order: the trip-count
   * values of the loops from `l` outwards, the outermost loop excluded; the
   * empty product (the constant 1) for a top-level loop; None when one of
   * those loops has no trip count (the source then multiplies by null).
   */
  function Factors(f: Function, trips: map<nat, nat>, l: nat): Option<seq<nat>>
    requires LoopsWellFormed(f) && l in f.loops
    decreases f.loops[l].depth
  {
    match f.loops[l].parent
    case None => Some([])
    case Some(q) =>
      var h := f.loops[l].header;
      if h !in trips then None
      else match Factors(f, trips, q)
        case None => None
        case Some(fs) => Some([trips[h]] + fs)
  }

  /**
   * The multiplier multiplies exactly the trip counts of the ancestor chain
   * without its outermost loop, and fails exactly when one of them is
   * missing.
   */
  lemma {:induction false} FactorsOfAncestors(f: Function, trips: map<nat, nat>, l: nat)
    requires LoopsWellFormed(f) && l in f.loops
    ensures var anc := Ancestors(f, l);
      (Factors(f, trips, l).Some? <==> forall k :: 0 <= k < |anc| - 1 ==> f.loops[anc[k]].header in trips) &&
      (Factors(f, trips, l).Some? ==>
         var fs := Factors(f, trips, l).value;
         |fs| == |anc| - 1 && forall k :: 0 <= k < |fs| ==> fs[k] == trips[f.loops[anc[k]].header])
    decreases f.loops[l].depth
  {
    match f.loops[l].parent
    case None =>
    case Some(q) =>
      FactorsOfAncestors(f, trips, q);
      var anc := Ancestors(f, l);
      assert anc[1..] == Ancestors(f, q);
  }

  function Prepend(acc: seq<nat>, r: Option<seq<nat>>): Option<seq<nat>> {
    match r
    case None => None
    case Some(fs) => Some(acc + fs)
  }

  /** Walks up the parents of `l`, collecting the trip count of every loop below the outermost one. */
  method Multiplier(f: Function, trips: map<nat, nat>, l: nat) returns (m: Option<seq<nat>>)
    requires LoopsWellFormed(f) && l in f.loops
    ensures m == Factors(f, trips, l)
  {
    var outter := l;
    var acc: seq<nat> := [];
    PrependNothing(Factors(f, trips, l));
    while f.loops[outter].parent.Some?
      invariant outter in f.loops
      invariant Factors(f, trips, l) == Prepend(acc, Factors(f, trips, outter))
      decreases f.loops[outter].depth
    {
      var h := f.loops[outter].header;
      if h !in trips {
        return None;
      }
      var q := f.loops[outter].parent.value;
      PrependStep(acc, trips[h], Factors(f, trips, q));
      acc := acc + [trips[h]];
      outter := q;
    }
    assert acc + [] == acc;
    m := Some(acc);
  }

  lemma {:induction false} PrependNothing(r: Option<seq<nat>>)
    ensures Prepend([], r) == r
  {
    if r.Some? {
      assert [] + r.value == r.value;
    }
  }

  lemma {:induction false} PrependStep(acc: seq<nat>, t: nat, r: Option<seq<nat>>)
    ensures Prepend(acc, Prepend([t], r)) == Prepend(acc + [t], r)
  {
    if r.Some? {
      assert acc + ([t] + r.value) == (acc + [t]) + r.value;
    }
  }

  // ---------------------------------------------------------------------
  // Choosing the start and step of a header phi
  // ---------------------------------------------------------------------

  /** The start value, the block it flows in from, and the value after one iteration. */
  datatype Incoming = Incoming(start: nat, from: nat, step: nat)

  /**
   * `BackEdgeIdx = (getIncomingBlock(0) == BackEdge)`; the start is the
   * incoming value at `!BackEdgeIdx` and the step value the one at
   * `BackEdgeIdx`, where `BackEdge` is the header's first predecessor.  So
   * the start is the value flowing in from that first predecessor and the
   * step value the other one.  A phi with fewer than two incoming values
   * (LLVM asserts) gives None.
   */
  function IncomingOf(phi: Inst, backEdge: nat): (r: Option<Incoming>)
    requires Arity(phi) && phi.op.OpPhi?
    ensures r.Some? <==> |phi.operands| >= 2
    ensures forall k :: 0 <= k < 2 && r.Some? && phi.incomingBlocks[k] == backEdge && phi.incomingBlocks[1 - k] != backEdge ==>
      r.value == Incoming(phi.operands[k], backEdge, phi.operands[1 - k])
  {
    if |phi.operands| < 2 then None
    else
      var backIdx := if phi.incomingBlocks[0] == backEdge then 1 else 0;
      Some(Incoming(phi.operands[1 - backIdx], phi.incomingBlocks[1 - backIdx], phi.operands[backIdx]))
  }

  /** What the pass derives from one header phi before visiting the GEPs. */
  datatype Plan = Plan(phi: nat, start: nat, at: nat, stepValue: nat, stepFn: Expr, indvarEnd: Expr, fn: ReuseFn, stepRhs: Expr)

  predicate PlanIn(f: Function, plan: Plan) {
    IsPhi(f, plan.phi) && plan.start in f.values && plan.stepValue in f.values
  }

  /**
   * The per-phi steps of `runOnFunction`: start and step from the
   * incoming values; the step function, which must be valid; its
   * composition over the trip count, which must be valid; the end value,
   * the composition with the start substituted for the phi; and the
   * runtime function, which must exist.  Any failure skips the phi.
   */
  function PhiPlan(f: Function, g: Graph, l: nat, trip: nat, phi: nat): (r: Option<Plan>)
    requires WellFormed(f) && l in f.loops && Simple(f, g, l) && IsPhi(f, phi) && trip in f.values
    ensures r.Some? ==> PlanIn(f, r.value) && r.value.phi == phi
    ensures r.Some? ==> IsValid(r.value.stepFn) && IsValid(ComposeLoopExpr(r.value.stepFn, Bound(phi), AtomOf(f, trip)))
  {
    var i := f.insts[phi];
    assert Arity(i);
    match IncomingOf(i, Preds(g, f.loops[l].header)[0])
    case None => None
    case Some(inc) =>
      assert inc.start in i.operands && inc.step in i.operands;
      var p := Bound(phi);
      var stepFn := GenExprFromUntil(f, g, inc.step, phi, l);
      if !IsValid(stepFn) then None
      else
        var cmps := ComposeLoopExpr(stepFn, p, AtomOf(f, trip));
        if !IsValid(cmps) then None
        else
          var indvarEnd := Subs(cmps, p, AtomOf(f, inc.start));
          match ChooseReuseFn(stepFn, p)
          case None => None
          case Some(choice) => Some(Plan(phi, inc.start, inc.from, inc.step, stepFn, indvarEnd, choice.0, choice.1))
  }

  /** A valid composition of a clean step function over a clean trip count is clean. */
  lemma {:induction false} CleanCompose(ex: Expr, p: Symbol, times: Expr)
    requires Clean(ex) && Clean(times) && p.Bound? && IsValid(ComposeLoopExpr(ex, p, times))
    ensures Clean(ComposeLoopExpr(ex, p, times))
  {
    var w := MatchAddWild(ex, Sym(p)).value;
    CleanMatchAddWild(ex, Sym(p));
    CleanTimes(w, times);
    CleanPlus(Sym(p), Times(w, times));
  }

  /**
   * What a plan means in a consistent execution snapshot: the pass always
   * calls `__pact_reuse_add`; the step function maps the phi's current
   * value to the value the phi takes next; and, when the step binding does
   * not mention the phi, the recorded end value is the start value with
   * the step applied trip-count times.
   */
  lemma {:induction false} PlanSound(f: Function, g: Graph, l: nat, trip: nat, phi: nat, env: nat -> real, n: nat)
    requires WellFormed(f) && l in f.loops && Simple(f, g, l) && IsPhi(f, phi) && trip in f.values
    requires PhiPlan(f, g, l, trip, phi).Some? && Consistent(f, env)
    requires trip != phi && env(trip) == n as real
    ensures var plan := PhiPlan(f, g, l, trip, phi).value; var e := SymEnv(env);
      plan.fn == PactAdd && Clean(plan.stepFn) && Clean(plan.indvarEnd) &&
      Eval(plan.stepFn, e) == env(plan.stepValue) &&
      (!Has(plan.stepRhs, Sym(Bound(phi))) ==>
         Eval(plan.indvarEnd, e) == Iterate(StepOf(plan.stepFn, Bound(phi), e), n, env(plan.start)))
  {
    var plan := PhiPlan(f, g, l, trip, phi).value;
    var e := SymEnv(env);
    var p := Bound(phi);
    var times := AtomOf(f, trip);
    GenSound(f, g, plan.stepValue, phi, l, env);
    OnlyAddReached(plan.stepFn, p, times);
    CleanCompose(plan.stepFn, p, times);
    var cmps := ComposeLoopExpr(plan.stepFn, p, times);
    var start := AtomOf(f, plan.start);
    SubsSound(cmps, p, start, e);
    AtomMeaning(f, plan.start, env);
    if !Has(plan.stepRhs, Sym(p)) {
      AtomMeaning(f, trip, env);
      assert f.values[trip].ptr == trip;
      ComposeSound(plan.stepFn, p, times, e, n, env(plan.start));
    }
  }

  // ---------------------------------------------------------------------
  // Calls for the GEPs
  // ---------------------------------------------------------------------

  /**
   * A `__pact_reuse_*` call: the function, the block before whose
   * terminator it is placed (the block the start value flows in from), the
   * array, the first and last subscript, the step and the factors of the
   * multiplier.
   */
  datatype ReuseCall = ReuseCall(fn: ReuseFn, at: nat, arr: nat, first: Expr, last: Expr, step: Expr, multiplier: seq<nat>)

  predicate IsGepInst(f: Function, q: nat) {
    q in f.insts && f.insts[q].op.OpGep?
  }

  /**
   * The call for one GEP: only a GEP with two operands (pointer and one
   * index) whose subscript function is valid and has the phi gets one; its
   * subscripts are the subscript function with the phi replaced by the
   * start and by the end value.
   */
  function GepCall(f: Function, g: Graph, l: nat, trips: map<nat, nat>, plan: Plan, gep: nat): (r: Option<ReuseCall>)
    requires WellFormed(f) && l in f.loops && PlanIn(f, plan) && IsGepInst(f, gep)
    ensures r.Some? <==>
      |f.insts[gep].operands| == 2 &&
      IsValid(GenExprFromUntil(f, g, f.insts[gep].operands[1], plan.phi, l)) &&
      Has(GenExprFromUntil(f, g, f.insts[gep].operands[1], plan.phi, l), Sym(Bound(plan.phi))) &&
      Factors(f, trips, l).Some?
    ensures r.Some? ==> (r.value.arr == f.insts[gep].operands[0] && r.value.fn == plan.fn &&
      r.value.step == plan.stepRhs && r.value.at == plan.at && Some(r.value.multiplier) == Factors(f, trips, l))
  {
    var ops := f.insts[gep].operands;
    if |ops| != 2 then None
    else
      assert ops[1] in f.values;
      var p := Bound(plan.phi);
      var sub := GenExprFromUntil(f, g, ops[1], plan.phi, l);
      if !IsValid(sub) || !Has(sub, Sym(p)) then None
      else match Factors(f, trips, l)
        case None => None
        case Some(m) => Some(ReuseCall(plan.fn, plan.at, ops[0], Subs(sub, p, AtomOf(f, plan.start)), Subs(sub, p, plan.indvarEnd), plan.stepRhs, m))
  }

  /**
   * The subscripts of a call are the GEP's subscript function evaluated
   * with the phi at its start value and at its end value, the subscript
   * function itself giving the index the GEP uses.
   */
  lemma {:induction false} GepCallSound(f: Function, g: Graph, l: nat, trips: map<nat, nat>, plan: Plan, gep: nat, env: nat -> real)
    requires WellFormed(f) && l in f.loops && PlanIn(f, plan) && IsGepInst(f, gep) && Consistent(f, env)
    requires Clean(plan.indvarEnd) && GepCall(f, g, l, trips, plan, gep).Some?
    ensures var c := GepCall(f, g, l, trips, plan, gep).value;
      var sub := GenExprFromUntil(f, g, f.insts[gep].operands[1], plan.phi, l);
      var e := SymEnv(env);
      Clean(sub) && Eval(sub, e) == env(f.insts[gep].operands[1]) &&
      Eval(c.first, e) == Eval(sub, Bind(e, Bound(plan.phi), env(plan.start))) &&
      Eval(c.last, e) == Eval(sub, Bind(e, Bound(plan.phi), Eval(plan.indvarEnd, e)))
  {
    var ops := f.insts[gep].operands;
    assert ops[1] in f.values;
    var sub := GenExprFromUntil(f, g, ops[1], plan.phi, l);
    var e := SymEnv(env);
    GenSound(f, g, ops[1], plan.phi, l, env);
    AtomMeaning(f, plan.start, env);
    SubsSound(sub, Bound(plan.phi), AtomOf(f, plan.start), e);
    SubsSound(sub, Bound(plan.phi), plan.indvarEnd, e);
  }

  // ---------------------------------------------------------------------
  // runOnFunction
  // ---------------------------------------------------------------------

  /** The GEP instructions of `body`, in order. */
  function GepsOfBody(f: Function, body: seq<nat>): (r: seq<nat>)
    ensures forall q :: q in r <==> q in body && IsGepInst(f, q)
  {
    if body == [] then []
    else GepsOfBody(f, body[..|body| - 1]) + (if IsGepInst(f, body[|body| - 1]) then [body[|body| - 1]] else [])
  }

  /** The GEPs of the blocks `bs`, block by block. */
  function GepsIn(f: Function, g: Graph, bs: seq<nat>): (r: seq<nat>)
    ensures forall q :: q in r ==> IsGepInst(f, q)
  {
    if bs == [] then [] else GepsIn(f, g, bs[..|bs| - 1]) + GepsOfBody(f, Body(g, bs[|bs| - 1]))
  }

  /** Every GEP in a block of `bs` is collected. */
  lemma {:induction false} GepsInComplete(f: Function, g: Graph, bs: seq<nat>, k: nat, q: nat)
    requires k < |bs| && q in Body(g, bs[k]) && IsGepInst(f, q)
    ensures q in GepsIn(f, g, bs)
  {
    if k < |bs| - 1 {
      assert bs[..|bs| - 1][k] == bs[k];
      GepsInComplete(f, g, bs[..|bs| - 1], k, q);
    }
  }

  /** The inner loop gathering a block's GEPs. */
  method CollectBlockGeps(f: Function, body: seq<nat>) returns (geps: seq<nat>)
    ensures geps == GepsOfBody(f, body)
  {
    geps := [];
    var k := 0;
    while k < |body|
      invariant k <= |body| && geps == GepsOfBody(f, body[..k])
    {
      assert body[..k + 1][..k] == body[..k];
      if IsGepInst(f, body[k]) {
        geps := geps + [body[k]];
      }
      k := k + 1;
    }
    assert body[..k] == body;
  }

  /** Visits the loop's blocks in order and, inside each, its instructions in order, keeping the GEPs. */
  method CollectGeps(f: Function, g: Graph, bs: seq<nat>) returns (geps: seq<nat>)
    ensures geps == GepsIn(f, g, bs)
  {
    geps := [];
    var k := 0;
    while k < |bs|
      invariant k <= |bs| && geps == GepsIn(f, g, bs[..k])
    {
      assert bs[..k + 1][..k] == bs[..k];
      var more := CollectBlockGeps(f, Body(g, bs[k]));
      geps := geps + more;
      k := k + 1;
    }
    assert bs[..k] == bs;
  }

  function OptionList<T>(o: Option<T>): seq<T> {
    if o.Some? then [o.value] else []
  }

  /** The calls for the GEPs `geps`, in order. */
  function GepCalls(f: Function, g: Graph, l: nat, trips: map<nat, nat>, plan: Plan, geps: seq<nat>): (r: seq<ReuseCall>)
    requires WellFormed(f) && l in f.loops && PlanIn(f, plan) && forall q :: q in geps ==> IsGepInst(f, q)
    ensures |r| <= |geps|
  {
    if geps == [] then []
    else GepCalls(f, g, l, trips, plan, geps[..|geps| - 1]) + OptionList(GepCall(f, g, l, trips, plan, geps[|geps| - 1]))
  }

  /** The body of the GEP loop: the checks, then the multiplier loop. */
  method CallForGep(f: Function, g: Graph, l: nat, trips: map<nat, nat>, plan: Plan, gep: nat) returns (c: Option<ReuseCall>)
    requires WellFormed(f) && l in f.loops && PlanIn(f, plan) && IsGepInst(f, gep)
    ensures c == GepCall(f, g, l, trips, plan, gep)
  {
    var ops := f.insts[gep].operands;
    if |ops| != 2 {
      return None;
    }
    assert ops[1] in f.values;
    var p := Bound(plan.phi);
    var sub := GenExprFromUntil(f, g, ops[1], plan.phi, l);
    if !IsValid(sub) || !Has(sub, Sym(p)) {
      return None;
    }
    var m := Multiplier(f, trips, l);
    if m.None? {
      return None;
    }
    c := Some(ReuseCall(plan.fn, plan.at, ops[0], Subs(sub, p, AtomOf(f, plan.start)), Subs(sub, p, plan.indvarEnd), plan.stepRhs, m.value));
  }

  /** The loop over the GEPs for one phi. */
  method CallsForGeps(f: Function, g: Graph, l: nat, trips: map<nat, nat>, plan: Plan, geps: seq<nat>) returns (calls: seq<ReuseCall>)
    requires WellFormed(f) && l in f.loops && PlanIn(f, plan) && forall q :: q in geps ==> IsGepInst(f, q)
    ensures calls == GepCalls(f, g, l, trips, plan, geps)
  {
    calls := [];
    var k := 0;
    while k < |geps|
      invariant k <= |geps| && calls == GepCalls(f, g, l, trips, plan, geps[..k])
    {
      assert geps[..k + 1][..k] == geps[..k];
      assert geps[k] in geps;
      var c := CallForGep(f, g, l, trips, plan, geps[k]);
      calls := calls + OptionList(c);
      k := k + 1;
    }
    assert geps[..k] == geps;
  }

  /** The calls of one phi: none when it is skipped, otherwise one per accepted GEP. */
  function PlanCalls(f: Function, g: Graph, l: nat, trips: map<nat, nat>, trip: nat, phi: nat, geps: seq<nat>): seq<ReuseCall>
    requires WellFormed(f) && l in f.loops && Simple(f, g, l) && trip in f.values && IsPhi(f, phi)
    requires forall q :: q in geps ==> IsGepInst(f, q)
  {
    match PhiPlan(f, g, l, trip, phi)
    case None => []
    case Some(plan) => GepCalls(f, g, l, trips, plan, geps)
  }

  method CallsForPhi(f: Function, g: Graph, l: nat, trips: map<nat, nat>, trip: nat, phi: nat, geps: seq<nat>) returns (calls: seq<ReuseCall>)
    requires WellFormed(f) && l in f.loops && Simple(f, g, l) && trip in f.values && IsPhi(f, phi)
    requires forall q :: q in geps ==> IsGepInst(f, q)
    ensures calls == PlanCalls(f, g, l, trips, trip, phi, geps)
  {
    var plan := PhiPlan(f, g, l, trip, phi);
    if plan.None? {
      return [];
    }
    calls := CallsForGeps(f, g, l, trips, plan.value, geps);
  }

  /** The calls of the phis `phis` over the GEPs `geps`. */
  function PhiCalls(f: Function, g: Graph, l: nat, trips: map<nat, nat>, trip: nat, phis: seq<nat>, geps: seq<nat>): seq<ReuseCall>
    requires WellFormed(f) && l in f.loops && Simple(f, g, l) && trip in f.values
    requires (forall q :: q in phis ==> IsPhi(f, q)) && forall q :: q in geps ==> IsGepInst(f, q)
  {
    if phis == [] then []
    else
      PhiCalls(f, g, l, trips, trip, phis[..|phis| - 1], geps) + PlanCalls(f, g, l, trips, trip, phis[|phis| - 1], geps)
  }

  /** The phis at the start of a block: the scan stops at the first instruction that is not a phi. */
  function LeadingPhis(f: Function, body: seq<nat>): (r: seq<nat>)
    ensures |r| <= |body| && r == body[..|r|]
    ensures forall q :: q in r ==> IsPhi(f, q)
    ensures |r| < |body| ==> !IsPhi(f, body[|r|])
  {
    if body == [] || !IsPhi(f, body[0]) then []
    else [body[0]] + LeadingPhis(f, body[1..])
  }

  /** Trip-count values are values of the function. */
  predicate TripsIn(f: Function, trips: map<nat, nat>) {
    forall h :: h in trips ==> trips[h] in f.values
  }

  /**
   * The calls for block `b`: none unless it is a loop header with a trip
   * count whose loop is simple; otherwise the calls of its leading phis
   * over the GEPs of the loop's blocks.
   */
  function HeaderCalls(f: Function, g: Graph, trips: map<nat, nat>, b: nat): seq<ReuseCall>
    requires WellFormed(f) && TripsIn(f, trips)
  {
    if !IsHeader(f, b) || b !in trips then []
    else
      var l := f.loopOf[b];
      if !Simple(f, g, l) then []
      else PhiCalls(f, g, l, trips, trips[b], LeadingPhis(f, Body(g, b)), GepsIn(f, g, LoopBlocks(g, l)))
  }

  /** The calls of the blocks `bs`, block by block. */
  function FunctionCalls(f: Function, g: Graph, trips: map<nat, nat>, bs: seq<nat>): seq<ReuseCall>
    requires WellFormed(f) && TripsIn(f, trips)
  {
    if bs == [] then [] else FunctionCalls(f, g, trips, bs[..|bs| - 1]) + HeaderCalls(f, g, trips, bs[|bs| - 1])
  }

  /** The work for one loop header: gather the GEPs, then go through the leading phis. */
  method CallsForHeader(f: Function, g: Graph, trips: map<nat, nat>, b: nat) returns (calls: seq<ReuseCall>)
    requires WellFormed(f) && TripsIn(f, trips)
    ensures calls == HeaderCalls(f, g, trips, b)
  {
    if !IsHeader(f, b) || b !in trips {
      return [];
    }
    var l := f.loopOf[b];
    if !Simple(f, g, l) {
      return [];
    }
    var geps := CollectGeps(f, g, LoopBlocks(g, l));
    calls := CallsForPhis(f, g, l, trips, trips[b], LeadingPhis(f, Body(g, b)), geps);
  }

  /** The loop over the leading phis of a header. */
  method CallsForPhis(f: Function, g: Graph, l: nat, trips: map<nat, nat>, trip: nat, phis: seq<nat>, geps: seq<nat>)
    returns (calls: seq<ReuseCall>)
    requires WellFormed(f) && l in f.loops && Simple(f, g, l) && trip in f.values
    requires (forall q :: q in phis ==> IsPhi(f, q)) && forall q :: q in geps ==> IsGepInst(f, q)
    ensures calls == PhiCalls(f, g, l, trips, trip, phis, geps)
  {
    calls := [];
    var k := 0;
    while k < |phis|
      invariant k <= |phis| && calls == PhiCalls(f, g, l, trips, trip, phis[..k], geps)
    {
      assert phis[..k + 1][..k] == phis[..k];
      assert phis[k] in phis;
      var more := CallsForPhi(f, g, l, trips, trip, phis[k], geps);
      calls := calls + more;
      k := k + 1;
    }
    assert phis[..k] == phis;
  }

  /**
   * `Reuse::runOnFunction`: the calls the pass places, block by block in
   * layout order.  The trip counts are those the trip-count analysis
   * answers, by header.
   */
  method RunOnFunction(f: Function, g: Graph, trips: map<nat, nat>) returns (calls: seq<ReuseCall>)
    requires WellFormed(f) && TripsIn(f, trips)
    ensures calls == FunctionCalls(f, g, trips, g.blocks)
  {
    calls := [];
    var k := 0;
    while k < |g.blocks|
      invariant k <= |g.blocks| && calls == FunctionCalls(f, g, trips, g.blocks[..k])
    {
      assert g.blocks[..k + 1][..k] == g.blocks[..k];
      var more := CallsForHeader(f, g, trips, g.blocks[k]);
      calls := calls + more;
      k := k + 1;
    }
    assert g.blocks[..k] == g.blocks;
  }
}
