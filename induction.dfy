/**
 * The induction-variable recogniser of `LoopInfoExpr`: loop invariance of
 * an expression, the choice of the single loop-variant phi, `getLoopInfo`
 * (induction variable, start, end and step of a loop),
 * `getLoopForInductionVariable` and the co-located variables of the Fasan
 * copy.  Symbols stand for the values at their addresses, so
 * `getSymbolValue` is the address a symbol carries.
 */
module Induction {
  import opened Wrappers
  import opened SymExpr
  import opened Intern
  import opened SymbolTables
  import opened Ir
  import opened LoopInfo

  // ---------------------------------------------------------------------
  // IsLoopInvariant
  // ---------------------------------------------------------------------

  /**
   * `L->isLoopInvariant(Sym.getSymbolValue())`.  The Invalid symbol has no
   * value; the callers only ask about valid expressions, and the model
   * counts it as invariant.
   */
  predicate SymbolInvariant(f: Function, l: nat, s: Symbol)
    requires l in f.loops
  {
    s.Bound? ==> Invariant(f, l, s.value)
  }

  /** Every symbol of `e` is bound to a value invariant in loop `l`. */
  predicate ExprInvariant(f: Function, l: nat, e: Expr)
    requires l in f.loops
  {
    forall s :: s in Symbols(e) ==> SymbolInvariant(f, l, s)
  }

  /** `IsLoopInvariant(L, Ex)`: the scan over `getSymbols` with its early exit. */
  method IsLoopInvariant(f: Function, l: nat, e: Expr) returns (b: bool)
    requires l in f.loops
    ensures b == ExprInvariant(f, l, e)
  {
    var syms := Symbols(e);
    for i := 0 to |syms|
      invariant forall j :: 0 <= j < i ==> SymbolInvariant(f, l, syms[j])
    {
      if !SymbolInvariant(f, l, syms[i]) {
        return false;
      }
    }
    return true;
  }

  /**
   * What invariance means: two executions that agree on every value
   * invariant in the loop give an invariant expression the same value.
   */
  lemma {:induction false} ExprInvariantStable(f: Function, l: nat, e: Expr, env: nat -> real, env': nat -> real)
    requires l in f.loops && ExprInvariant(f, l, e)
    requires forall q :: Invariant(f, l, q) ==> env(q) == env'(q)
    ensures Eval(e, SymEnv(env)) == Eval(e, SymEnv(env'))
  {
    forall s | s in Symbols(e) ensures SymEnv(env)(s) == SymEnv(env')(s) {
      assert SymbolInvariant(f, l, s);
    }
    EvalAgree(e, SymEnv(env), SymEnv(env'));
  }

  // ---------------------------------------------------------------------
  // getSingleLoopVariantPhi
  // ---------------------------------------------------------------------

  /**
   * The scan of `getSingleLoopVariantPhi` over the remaining symbols `syms`
   * with `phi` chosen so far: invariant symbols are skipped; a variant one
   * that is not a phi, or any variant one once a phi is chosen, gives None.
   * A variant phi is chosen in the Spm copy, and in the Fasan copy only
   * when it sits in the loop's header (the Fasan copy skips other phis).
   */
  function ScanPhi(pass: Pass, f: Function, l: nat, syms: seq<Symbol>, phi: Option<nat>): (r: Option<nat>)
    requires l in f.loops
    ensures r.Some? ==> r == phi || (IsPhi(f, r.value) && !Invariant(f, l, r.value))
    decreases |syms|
  {
    if syms == [] then phi
    else if SymbolInvariant(f, l, syms[0]) then ScanPhi(pass, f, l, syms[1..], phi)
    else if !IsPhi(f, syms[0].value) || phi.Some? then None
    else if pass.Spm? || f.insts[syms[0].value].block == f.loops[l].header then
      ScanPhi(pass, f, l, syms[1..], Some(syms[0].value))
    else ScanPhi(pass, f, l, syms[1..], phi)
  }

  /** A variant phi the scan chooses. */
  predicate Selectable(pass: Pass, f: Function, l: nat, s: Symbol)
    requires l in f.loops
  {
    s.Bound? && !Invariant(f, l, s.value) && IsPhi(f, s.value) &&
    (pass.Spm? || f.insts[s.value].block == f.loops[l].header)
  }

  /** A symbol the scan passes over before choosing: invariant, or (Fasan) a variant phi outside the header. */
  predicate Skippable(pass: Pass, f: Function, l: nat, s: Symbol)
    requires l in f.loops
  {
    SymbolInvariant(f, l, s) ||
    (pass.Fasan? && IsPhi(f, s.value) && f.insts[s.value].block != f.loops[l].header)
  }

  /** `q` is chosen at occurrence `k`: everything before is skippable and everything after invariant. */
  predicate ChosenAt(pass: Pass, f: Function, l: nat, syms: seq<Symbol>, k: int, q: nat)
    requires l in f.loops
  {
    0 <= k < |syms| && syms[k] == Bound(q) && Selectable(pass, f, l, syms[k]) &&
    (forall j :: 0 <= j < k ==> Skippable(pass, f, l, syms[j])) &&
    (forall j :: k < j < |syms| ==> SymbolInvariant(f, l, syms[j]))
  }

  /** Once a phi is chosen, the scan keeps it exactly when every later symbol is invariant. */
  lemma {:induction false} ScanAfterChoice(pass: Pass, f: Function, l: nat, syms: seq<Symbol>, q: nat)
    requires l in f.loops
    ensures ScanPhi(pass, f, l, syms, Some(q)) ==
      if forall j :: 0 <= j < |syms| ==> SymbolInvariant(f, l, syms[j]) then Some(q) else None
    decreases |syms|
  {
    if syms != [] {
      ScanAfterChoice(pass, f, l, syms[1..], q);
      assert forall j :: 1 <= j < |syms| ==> syms[j] == syms[1..][j - 1];
    }
  }

  /** Past a symbol that is skippable but not selectable, the choices of the rest are the choices of the whole. */
  lemma {:induction false} ChosenShift(pass: Pass, f: Function, l: nat, syms: seq<Symbol>, q: nat)
    requires l in f.loops && syms != [] && Skippable(pass, f, l, syms[0]) && !Selectable(pass, f, l, syms[0])
    ensures (exists k :: ChosenAt(pass, f, l, syms, k, q)) <==> (exists k :: ChosenAt(pass, f, l, syms[1..], k, q))
  {
    var rest := syms[1..];
    assert forall j :: 1 <= j < |syms| ==> syms[j] == rest[j - 1];
    if k :| ChosenAt(pass, f, l, syms, k, q) {
      assert k != 0;
      assert ChosenAt(pass, f, l, rest, k - 1, q);
    }
    if k :| ChosenAt(pass, f, l, rest, k, q) {
      assert ChosenAt(pass, f, l, syms, k + 1, q);
    }
  }

  /**
   * The scan chooses `q` exactly when `q` occurs selectable at some position
   * with only skippable symbols before it and only invariant ones after it.
   */
  lemma {:induction false} ScanPhiChooses(pass: Pass, f: Function, l: nat, syms: seq<Symbol>, q: nat)
    requires l in f.loops
    ensures ScanPhi(pass, f, l, syms, None) == Some(q) <==> exists k :: ChosenAt(pass, f, l, syms, k, q)
    decreases |syms|
  {
    if syms == [] {
      return;
    }
    var s, rest := syms[0], syms[1..];
    assert forall j :: 1 <= j < |syms| ==> syms[j] == rest[j - 1];
    if Selectable(pass, f, l, s) {
      ScanAfterChoice(pass, f, l, rest, s.value);
      if ChosenAt(pass, f, l, syms, 0, q) {
        assert ScanPhi(pass, f, l, syms, None) == Some(q);
      }
      if k :| ChosenAt(pass, f, l, syms, k, q) {
        assert k == 0;
      }
    } else if Skippable(pass, f, l, s) {
      ScanPhiChooses(pass, f, l, rest, q);
      ChosenShift(pass, f, l, syms, q);
    } else {
      assert ScanPhi(pass, f, l, syms, None) == None;
      assert forall k :: !ChosenAt(pass, f, l, syms, k, q);
    }
  }

  /** `getSingleLoopVariantPhi(L, Ex)`: the loop over `getSymbols` updating `Phi`. */
  method GetSingleLoopVariantPhi(pass: Pass, f: Function, l: nat, e: Expr) returns (phi: Option<nat>)
    requires l in f.loops
    ensures phi == ScanPhi(pass, f, l, Symbols(e), None)
  {
    var syms := Symbols(e);
    phi := None;
    var i := 0;
    while i < |syms|
      invariant 0 <= i <= |syms|
      invariant ScanPhi(pass, f, l, syms[i..], phi) == ScanPhi(pass, f, l, syms, None)
    {
      assert syms[i..][0] == syms[i] && syms[i..][1..] == syms[i + 1..];
      var s := syms[i];
      if !SymbolInvariant(f, l, s) {
        if !IsPhi(f, s.value) || phi.Some? {
          return None;
        }
        if pass.Spm? || f.insts[s.value].block == f.loops[l].header {
          phi := Some(s.value);
        }
      }
      i := i + 1;
    }
  }

  // ---------------------------------------------------------------------
  // getLoopInfo
  // ---------------------------------------------------------------------

  /** What `getLoopInfo` reports: the induction variable (a phi, by address) and its start, end and step. */
  datatype Induction = Induction(indvar: nat, start: Expr, end: Expr, step: Expr)

  /**
   * The compare instruction on which the loop's only exiting block
   * branches: None without a single exiting block, when that block does not
   * end in a conditional branch, or when the condition is not an `icmp`.
   */
  function ExitCompare(f: Function, l: nat): (c: Option<nat>)
    requires WellFormed(f) && l in f.loops
    ensures c.Some? ==>
      var x := f.loops[l].exiting;
      x.Some? && x.value in f.terminator && f.insts[f.terminator[x.value]].op.OpBr? &&
      f.insts[f.terminator[x.value]].operands == [c.value] &&
      c.value in f.insts && f.insts[c.value].op.OpICmp? && |f.insts[c.value].operands| == 2
  {
    var x := f.loops[l].exiting;
    if x.None? || x.value !in f.terminator then None
    else
      var br := f.insts[f.terminator[x.value]];
      if !br.op.OpBr? || |br.operands| != 1 then None
      else
        var c := br.operands[0];
        if c in f.insts && f.insts[c].op.OpICmp? then
          assert Arity(f.insts[c]);
          Some(c)
        else None
  }

  /** The accepted predicates: the eight order comparisons, and in the Fasan copy also EQ. */
  predicate Accepts(pass: Pass, p: Predicate) {
    IsOrdered(p) || (pass.Fasan? && p.EQ?)
  }

  /**
   * The loop-variant side and the invariant side of the comparison: exactly
   * one side must be invariant in the loop.
   */
  function SplitSides(f: Function, l: nat, lhs: Expr, rhs: Expr): (r: Option<(Expr, Expr)>)
    requires l in f.loops
    ensures r.None? <==> (ExprInvariant(f, l, lhs) <==> ExprInvariant(f, l, rhs))
    ensures r.Some? ==> !ExprInvariant(f, l, r.value.0) && ExprInvariant(f, l, r.value.1)
    ensures r.Some? ==> r.value == (lhs, rhs) || r.value == (rhs, lhs)
  {
    if !ExprInvariant(f, l, lhs) && ExprInvariant(f, l, rhs) then Some((lhs, rhs))
    else if ExprInvariant(f, l, lhs) && !ExprInvariant(f, l, rhs) then Some((rhs, lhs))
    else None
  }

  /** The comparison stage: predicate, outermost loop, variant side, invariant side and the compare itself. */
  datatype Compare = Compare(pred: Predicate, top: nat, variant: Expr, bound: Expr, cmp: nat)

  /**
   * The checks of `getLoopInfo` up to the choice of sides: the exit compare,
   * its predicate, both sides built relative to the outermost loop and
   * valid, and exactly one of them invariant in the loop.
   */
  function CompareOf(pass: Pass, f: Function, l: nat): (r: Option<Compare>)
    requires WellFormed(f) && l in f.loops
    ensures r.Some? ==> ExitCompare(f, l) == Some(r.value.cmp) && r.value.pred == f.insts[r.value.cmp].op.pred
    ensures r.Some? ==> Accepts(pass, r.value.pred) && r.value.top == Outermost(f, l)
    ensures r.Some? ==> IsValid(r.value.variant) && IsValid(r.value.bound)
    ensures r.Some? ==> !ExprInvariant(f, l, r.value.variant) && ExprInvariant(f, l, r.value.bound)
  {
    match ExitCompare(f, l)
    case None => None
    case Some(c) =>
      var pred := f.insts[c].op.pred;
      if !Accepts(pass, pred) then None
      else
        var ops := f.insts[c].operands;
        assert InstsWellFormed(f);
        assert ops[0] in f.values && ops[1] in f.values;
        var top := Outermost(f, l);
        var lhs := ExprForLoop(pass, f, Some(top), ops[0]);
        var rhs := ExprForLoop(pass, f, Some(top), ops[1]);
        if lhs == Invalid || rhs == Invalid then None
        else
          match SplitSides(f, l, lhs, rhs)
          case None => None
          case Some(sides) => Some(Compare(pred, top, sides.0, sides.1, c))
  }

  /** `getBasicBlockIndex`: the first position of block `b` among the incoming blocks, or -1. */
  function BlockIndex(bs: seq<nat>, b: nat): (k: int)
    ensures -1 <= k < |bs|
    ensures k >= 0 ==> bs[k] == b && b !in bs[..k]
    ensures k < 0 ==> b !in bs
  {
    if bs == [] then -1
    else if bs[0] == b then 0
    else
      var j := BlockIndex(bs[1..], b);
      if j < 0 then -1
      else
        assert bs[1..][..j] == bs[1..j + 1];
        j + 1
  }

  /**
   * The phi's (preheader, latch) incoming values.  The Fasan copy finds the
   * latch's position `k` and takes the other incoming at `1 - k`, which needs
   * `k` to be 0 or 1 and both positions to exist (LLVM's answer -1 for a
   * missing latch would index out of bounds; the model fails).  The Spm copy
   * asks for the values of the preheader and latch blocks, both of which
   * must exist and flow into the phi.
   */
  function Incomings(pass: Pass, f: Function, l: nat, phi: nat): (r: Option<(nat, nat)>)
    requires WellFormed(f) && l in f.loops && IsPhi(f, phi)
    ensures r.Some? ==> r.value.0 in f.values && r.value.1 in f.values && f.loops[l].latch.Some?
    ensures r.Some? ==> IncomingAt(f, phi, r.value.1, f.loops[l].latch.value)
    ensures r.Some? && pass.Fasan? ==> OtherIncoming(f, phi, r.value.0, r.value.1, f.loops[l].latch.value)
    ensures r.Some? && pass.Spm? ==> f.loops[l].preheader.Some? && IncomingAt(f, phi, r.value.0, f.loops[l].preheader.value)
  {
    var i := f.insts[phi];
    assert Arity(i) && InstsWellFormed(f);
    assert forall k :: 0 <= k < |i.operands| ==> i.operands[k] in f.values;
    var latch := f.loops[l].latch;
    if latch.None? then None
    else if pass.Fasan? then
      var k := BlockIndex(i.incomingBlocks, latch.value);
      if k < 0 || 1 - k < 0 || 1 - k >= |i.operands| then None
      else Some((i.operands[1 - k], i.operands[k]))
    else
      var pre := f.loops[l].preheader;
      if pre.None? then None
      else
        var a := BlockIndex(i.incomingBlocks, pre.value);
        var b := BlockIndex(i.incomingBlocks, latch.value);
        if a < 0 || b < 0 then None
        else Some((i.operands[a], i.operands[b]))
  }

  /** `v` flows into phi `phi` from block `b`. */
  predicate IncomingAt(f: Function, phi: nat, v: nat, b: nat)
    requires IsPhi(f, phi)
  {
    var i := f.insts[phi];
    exists k :: 0 <= k < |i.operands| && k < |i.incomingBlocks| && i.incomingBlocks[k] == b && i.operands[k] == v
  }

  /** The Fasan reading of a two-entry phi: `latch` comes from the latch block at 0 or 1, `pre` is the other incoming. */
  predicate OtherIncoming(f: Function, phi: nat, pre: nat, latch: nat, b: nat)
    requires IsPhi(f, phi)
  {
    var i := f.insts[phi];
    exists k :: 0 <= k <= 1 && 1 - k < |i.operands| && k < |i.operands| && k < |i.incomingBlocks| &&
      i.incomingBlocks[k] == b && i.operands[k] == latch && i.operands[1 - k] == pre
  }

  /** `match(Phi + Wild)` with exactly one binding that does not contain `Phi`. */
  function WildStep(e: Expr, phi: nat): (r: Option<Expr>)
    ensures r.Some? ==> MatchAddWild(e, Sym(Bound(phi))) == r && !Has(r.value, Sym(Bound(phi)))
    ensures r.None? ==> MatchAddWild(e, Sym(Bound(phi))).None? || Has(MatchAddWild(e, Sym(Bound(phi))).value, Sym(Bound(phi)))
  {
    var m := MatchAddWild(e, Sym(Bound(phi)));
    if m.Some? && !Has(m.value, Sym(Bound(phi))) then m else None
  }

  /** The bound corrected to the last value the induction variable takes. */
  function EndOf(pred: Predicate, bound: Expr, step: Expr): Expr {
    match pred
    case SLT => Minus(bound, Num(1.0))
    case ULT => Minus(bound, Num(1.0))
    case SGT => Plus(bound, Num(1.0))
    case UGT => Plus(bound, Num(1.0))
    case EQ => if IsNegative(step) then Plus(bound, Num(1.0)) else Minus(bound, Num(1.0))
    case _ => bound
  }

  /** How far the end lies from the bound. */
  function Correction(pred: Predicate, step: Expr): real {
    if pred.SLT? || pred.ULT? then -1.0
    else if pred.SGT? || pred.UGT? then 1.0
    else if pred.EQ? then (if IsNegative(step) then 1.0 else -1.0)
    else 0.0
  }

  /** The end is the bound moved by the predicate's correction (and by nothing else). */
  lemma {:induction false} EndOfMeaning(pred: Predicate, bound: Expr, step: Expr, env: Symbol -> real)
    requires IsValid(bound)
    ensures Eval(EndOf(pred, bound, step), env) == Eval(bound, env) + Correction(pred, step)
  {
    PlusSound(bound, Num(1.0), env);
    MinusSound(bound, Num(1.0), env);
  }

  /**
   * The stage after the sides: the single variant phi of the variant side,
   * its incoming values with the right variance, (Fasan) the checked side
   * of the form `Phi + W`, and the step `W` of the latch value `Phi + W`.
   */
  function FromSides(pass: Pass, f: Function, l: nat, cm: Compare): (r: Option<Induction>)
    requires WellFormed(f) && l in f.loops && cm.top in f.loops
    ensures r.Some? ==> ScanPhi(pass, f, l, Symbols(cm.variant), None) == Some(r.value.indvar)
    ensures r.Some? ==> IsPhi(f, r.value.indvar) && Incomings(pass, f, l, r.value.indvar).Some?
    ensures r.Some? ==> r.value.end == EndOf(cm.pred, cm.bound, r.value.step)
    ensures r.Some? && pass.Fasan? ==> WildStep(cm.variant, r.value.indvar).Some?
  {
    match ScanPhi(pass, f, l, Symbols(cm.variant), None)
    case None => None
    case Some(phi) =>
      match Incomings(pass, f, l, phi)
      case None => None
      case Some(inc) =>
        var (pre, latch) := inc;
        if !Invariant(f, l, pre) || Invariant(f, l, latch) then None
        else if pass.Fasan? && WildStep(cm.variant, phi).None? then None
        else
          match WildStep(ExprForLoop(pass, f, Some(cm.top), latch), phi)
          case None => None
          case Some(step) =>
            Some(Induction(phi, ExprForLoop(pass, f, Some(cm.top), pre), EndOf(cm.pred, cm.bound, step), step))
  }

  /**
   * `getLoopInfo(L, ...)`.  The Fasan copy fails on a null loop; the Spm
   * copy dereferences it, so there the loop must exist.
   */
  function LoopInfoOf(pass: Pass, f: Function, L: Option<nat>): (r: Option<Induction>)
    requires WellFormed(f) && LoopOk(f, L) && (pass.Spm? ==> L.Some?)
    ensures r.Some? ==> L.Some? && CompareOf(pass, f, L.value).Some?
  {
    if L.None? then None
    else
      match CompareOf(pass, f, L.value)
      case None => None
      case Some(cm) => FromSides(pass, f, L.value, cm)
  }

  // ---------------------------------------------------------------------
  // What getLoopInfo establishes
  // ---------------------------------------------------------------------

  /**
   * The two sides of an accepted comparison denote its two operands, one
   * each: in every consistent execution the variant side evaluates to the
   * value of operand `j` and the bound to the value of the other.
   */
  lemma {:induction false} CompareSound(pass: Pass, f: Function, l: nat, env: nat -> real)
    requires WellFormed(f) && l in f.loops && Consistent(f, env) && CompareOf(pass, f, l).Some?
    ensures var cm := CompareOf(pass, f, l).value; var ops := f.insts[cm.cmp].operands;
      exists j :: 0 <= j <= 1 &&
        Eval(cm.variant, SymEnv(env)) == env(ops[j]) && Eval(cm.bound, SymEnv(env)) == env(ops[1 - j])
  {
    var cm := CompareOf(pass, f, l).value;
    var ops := f.insts[cm.cmp].operands;
    assert InstsWellFormed(f);
    assert ops[0] in f.values && ops[1] in f.values;
    var top := Outermost(f, l);
    ExprForLoopSound(pass, f, Some(top), ops[0], env);
    ExprForLoopSound(pass, f, Some(top), ops[1], env);
    var lhs := ExprForLoop(pass, f, Some(top), ops[0]);
    var rhs := ExprForLoop(pass, f, Some(top), ops[1]);
    assert (cm.variant, cm.bound) == (lhs, rhs) || (cm.variant, cm.bound) == (rhs, lhs);
    if (cm.variant, cm.bound) == (lhs, rhs) {
      assert Eval(cm.variant, SymEnv(env)) == env(ops[0]) && Eval(cm.bound, SymEnv(env)) == env(ops[1 - 0]);
    } else {
      assert Eval(cm.variant, SymEnv(env)) == env(ops[1]) && Eval(cm.bound, SymEnv(env)) == env(ops[1 - 1]);
    }
  }

  /**
   * The induction variable is a loop-variant phi, in the Fasan copy one of
   * the loop's header; its preheader incoming value is invariant in the loop
   * and its latch incoming value is not.
   */
  lemma {:induction false} InductionPhi(pass: Pass, f: Function, L: Option<nat>)
    requires WellFormed(f) && LoopOk(f, L) && (pass.Spm? ==> L.Some?) && LoopInfoOf(pass, f, L).Some?
    ensures var ind := LoopInfoOf(pass, f, L).value; var l := L.value;
      IsPhi(f, ind.indvar) && !Invariant(f, l, ind.indvar) &&
      (pass.Fasan? ==> f.insts[ind.indvar].block == f.loops[l].header) &&
      Incomings(pass, f, l, ind.indvar).Some? &&
      Invariant(f, l, Incomings(pass, f, l, ind.indvar).value.0) &&
      !Invariant(f, l, Incomings(pass, f, l, ind.indvar).value.1)
  {
    var l := L.value;
    var cm := CompareOf(pass, f, l).value;
    var ind := LoopInfoOf(pass, f, L).value;
    assert FromSides(pass, f, l, cm) == Some(ind);
    ScanPhiChooses(pass, f, l, Symbols(cm.variant), ind.indvar);
    var k :| ChosenAt(pass, f, l, Symbols(cm.variant), k, ind.indvar);
  }

  /**
   * The step: in every consistent execution the latch incoming value is the
   * induction variable plus the step, and the step does not mention the
   * induction variable.
   */
  lemma {:induction false} InductionStep(pass: Pass, f: Function, L: Option<nat>, env: nat -> real)
    requires WellFormed(f) && LoopOk(f, L) && (pass.Spm? ==> L.Some?) && Consistent(f, env)
    requires LoopInfoOf(pass, f, L).Some?
    ensures var ind := LoopInfoOf(pass, f, L).value; var l := L.value;
      IsPhi(f, ind.indvar) && Incomings(pass, f, l, ind.indvar).Some? &&
      !Has(ind.step, Sym(Bound(ind.indvar))) &&
      env(Incomings(pass, f, l, ind.indvar).value.1) == env(ind.indvar) + Eval(ind.step, SymEnv(env))
  {
    var l := L.value;
    var cm := CompareOf(pass, f, l).value;
    var ind := LoopInfoOf(pass, f, L).value;
    assert FromSides(pass, f, l, cm) == Some(ind);
    var latch := Incomings(pass, f, l, ind.indvar).value.1;
    var latchEx := ExprForLoop(pass, f, Some(cm.top), latch);
    assert WildStep(latchEx, ind.indvar) == Some(ind.step);
    ExprForLoopSound(pass, f, Some(cm.top), latch, env);
    MatchAddWildSound(latchEx, Sym(Bound(ind.indvar)), SymEnv(env));
  }

  /** The start is the expression of the preheader incoming value, and denotes it when valid. */
  lemma {:induction false} InductionStart(pass: Pass, f: Function, L: Option<nat>, env: nat -> real)
    requires WellFormed(f) && LoopOk(f, L) && (pass.Spm? ==> L.Some?) && Consistent(f, env)
    requires LoopInfoOf(pass, f, L).Some?
    ensures var ind := LoopInfoOf(pass, f, L).value; var l := L.value;
      IsPhi(f, ind.indvar) && Incomings(pass, f, l, ind.indvar).Some? &&
      (IsValid(ind.start) ==> Eval(ind.start, SymEnv(env)) == env(Incomings(pass, f, l, ind.indvar).value.0))
  {
    var l := L.value;
    var cm := CompareOf(pass, f, l).value;
    var ind := LoopInfoOf(pass, f, L).value;
    assert FromSides(pass, f, l, cm) == Some(ind);
    var pre := Incomings(pass, f, l, ind.indvar).value.0;
    ExprForLoopSound(pass, f, Some(cm.top), pre, env);
  }

  /**
   * The end is the comparison's invariant side corrected by the predicate:
   * one less for `<`, one more for `>`, unchanged for `<=` and `>=`, and for
   * EQ one more when the step is a negative constant and one less otherwise.
   */
  lemma {:induction false} InductionEnd(pass: Pass, f: Function, L: Option<nat>, env: Symbol -> real)
    requires WellFormed(f) && LoopOk(f, L) && (pass.Spm? ==> L.Some?) && LoopInfoOf(pass, f, L).Some?
    ensures var ind := LoopInfoOf(pass, f, L).value; var cm := CompareOf(pass, f, L.value).value;
      Eval(ind.end, env) == Eval(cm.bound, env) + Correction(cm.pred, ind.step)
  {
    var cm := CompareOf(pass, f, L.value).value;
    var ind := LoopInfoOf(pass, f, L).value;
    assert FromSides(pass, f, L.value, cm) == Some(ind);
    EndOfMeaning(cm.pred, cm.bound, ind.step, env);
  }

  /** The Fasan copy also checks the variant side: it is the induction variable plus an offset free of it. */
  lemma {:induction false} InductionOffset(f: Function, L: Option<nat>, env: Symbol -> real)
    requires WellFormed(f) && LoopOk(f, L) && LoopInfoOf(Fasan, f, L).Some?
    ensures var ind := LoopInfoOf(Fasan, f, L).value; var cm := CompareOf(Fasan, f, L.value).value;
      var w := WildStep(cm.variant, ind.indvar);
      w.Some? && !Has(w.value, Sym(Bound(ind.indvar))) &&
      Eval(cm.variant, env) == env(Bound(ind.indvar)) + Eval(w.value, env)
  {
    var cm := CompareOf(Fasan, f, L.value).value;
    var ind := LoopInfoOf(Fasan, f, L).value;
    assert FromSides(Fasan, f, L.value, cm) == Some(ind);
    MatchAddWildSound(cm.variant, Sym(Bound(ind.indvar)), env);
  }

  /**
   * The source's `getLoopInfo`, step by step: expressions are built (and
   * their atoms interned in `t`), invariance and the phi are found by the
   * scanning methods; the out-parameters are returned together on success.
   */
  method GetLoopInfo(pass: Pass, f: Function, L: Option<nat>, t: SymbolTable) returns (r: Option<Induction>)
    requires WellFormed(f) && LoopOk(f, L) && (pass.Spm? ==> L.Some?) && t.Valid() && TableOf(t, f)
    modifies t
    ensures t.Valid() && TableOf(t, f) && r == LoopInfoOf(pass, f, L)
  {
    if L.None? {
      return None;
    }
    var cm := CompareStep(pass, f, L.value, t);
    if cm.None? {
      return None;
    }
    r := FromSidesStep(pass, f, L.value, cm.value, t);
  }

  /** The part of `GetLoopInfo` up to the choice of sides, as `CompareOf` specifies it. */
  method CompareStep(pass: Pass, f: Function, l: nat, t: SymbolTable) returns (r: Option<Compare>)
    requires WellFormed(f) && l in f.loops && t.Valid() && TableOf(t, f)
    modifies t
    ensures t.Valid() && TableOf(t, f) && r == CompareOf(pass, f, l)
  {
    r := None;
    var c := ExitCompare(f, l);
    if c.Some? && Accepts(pass, f.insts[c.value].op.pred) {
      var ops := f.insts[c.value].operands;
      assert InstsWellFormed(f);
      assert ops[0] in f.values && ops[1] in f.values;
      var top := FindToplevel(f, l);
      var lhs := BuildExprForLoop(pass, f, Some(top), ops[0], t);
      var rhs := BuildExprForLoop(pass, f, Some(top), ops[1], t);
      if lhs != Invalid && rhs != Invalid {
        var sides := SplitStep(f, l, lhs, rhs);
        if sides.Some? {
          r := Some(Compare(f.insts[c.value].op.pred, top, sides.value.0, sides.value.1, c.value));
        }
      }
    }
  }

  /** The variance test on the two sides, with `IsLoopInvariant`. */
  method SplitStep(f: Function, l: nat, lhs: Expr, rhs: Expr) returns (r: Option<(Expr, Expr)>)
    requires l in f.loops
    ensures r == SplitSides(f, l, lhs, rhs)
  {
    var lhsInv := IsLoopInvariant(f, l, lhs);
    var rhsInv := IsLoopInvariant(f, l, rhs);
    if !lhsInv && rhsInv {
      r := Some((lhs, rhs));
    } else if lhsInv && !rhsInv {
      r := Some((rhs, lhs));
    } else {
      r := None;
    }
  }

  /** The part of `GetLoopInfo` after the sides are known, as `FromSides` specifies it. */
  method FromSidesStep(pass: Pass, f: Function, l: nat, cm: Compare, t: SymbolTable) returns (r: Option<Induction>)
    requires WellFormed(f) && l in f.loops && cm.top in f.loops && t.Valid() && TableOf(t, f)
    modifies t
    ensures t.Valid() && TableOf(t, f) && r == FromSides(pass, f, l, cm)
  {
    var phi := GetSingleLoopVariantPhi(pass, f, l, cm.variant);
    if phi.None? {
      return None;
    }
    var inc := Incomings(pass, f, l, phi.value);
    if inc.None? {
      return None;
    }
    var (pre, latch) := inc.value;
    if !Invariant(f, l, pre) || Invariant(f, l, latch) {
      return None;
    }
    if pass.Fasan? && WildStep(cm.variant, phi.value).None? {
      return None;
    }
    var start, latchEx;
    if pass.Spm? {
      start := BuildExprForLoop(pass, f, Some(cm.top), pre, t);
      latchEx := BuildExprForLoop(pass, f, Some(cm.top), latch, t);
    } else {
      latchEx := BuildExprForLoop(pass, f, Some(cm.top), latch, t);
      start := BuildExprForLoop(pass, f, Some(cm.top), pre, t);
    }
    var step := WildStep(latchEx, phi.value);
    if step.None? {
      return None;
    }
    r := Some(Induction(phi.value, start, EndOf(cm.pred, cm.bound, step.value), step.value));
  }

  // ---------------------------------------------------------------------
  // getLoopForInductionVariable, isInductionVariable
  // ---------------------------------------------------------------------

  /**
   * `getLoopForInductionVariable(Phi)`: the loop the phi's block heads, when
   * `getLoopInfo` on it selects this very phi; None otherwise.
   */
  function LoopForIndvar(pass: Pass, f: Function, phi: nat): (r: Option<nat>)
    requires WellFormed(f) && IsPhi(f, phi)
    ensures r.Some? ==> r.value in f.loops && f.loops[r.value].header == f.insts[phi].block
    ensures r.Some? ==> LoopInfoOf(pass, f, r).Some? && LoopInfoOf(pass, f, r).value.indvar == phi
  {
    var b := f.insts[phi].block;
    if !IsHeader(f, b) then None
    else
      var info := LoopInfoOf(pass, f, Some(f.loopOf[b]));
      if info.Some? && info.value.indvar == phi then Some(f.loopOf[b]) else None
  }

  /** The source's `getLoopForInductionVariable`, running `getLoopInfo` on the loop the phi's block heads. */
  method GetLoopForInductionVariable(pass: Pass, f: Function, phi: nat, t: SymbolTable) returns (r: Option<nat>)
    requires WellFormed(f) && IsPhi(f, phi) && t.Valid() && TableOf(t, f)
    modifies t
    ensures t.Valid() && TableOf(t, f) && r == LoopForIndvar(pass, f, phi)
  {
    var b := f.insts[phi].block;
    if !IsHeader(f, b) {
      r := None;
    } else {
      var info := GetLoopInfo(pass, f, Some(f.loopOf[b]), t);
      r := if info.Some? && info.value.indvar == phi then Some(f.loopOf[b]) else None;
    }
  }

  /** `isInductionVariable(Phi)`. */
  predicate IsInductionVariable(pass: Pass, f: Function, phi: nat)
    requires WellFormed(f) && IsPhi(f, phi)
  {
    LoopForIndvar(pass, f, phi).Some?
  }

  /**
   * The loop of an induction variable found in its header is that loop: in
   * the Fasan copy every induction variable sits in the header, so
   * `getLoopInfo` and `getLoopForInductionVariable` always agree; in the Spm
   * copy they agree for header phis.
   */
  lemma {:induction false} LoopForIndvarRoundTrip(pass: Pass, f: Function, l: nat)
    requires WellFormed(f) && l in f.loops && LoopInfoOf(pass, f, Some(l)).Some?
    requires pass.Spm? ==> f.insts[LoopInfoOf(pass, f, Some(l)).value.indvar].block == f.loops[l].header
    ensures var ind := LoopInfoOf(pass, f, Some(l)).value;
      IsPhi(f, ind.indvar) && LoopForIndvar(pass, f, ind.indvar) == Some(l)
  {
    InductionPhi(pass, f, Some(l));
  }

  // ---------------------------------------------------------------------
  // getColocatedLoopInfo (Fasan)
  // ---------------------------------------------------------------------

  /** The incoming block `b` lies outside every loop or in the parent of loop `l`. */
  predicate FromOutside(f: Function, l: nat, b: nat)
    requires l in f.loops
  {
    b !in f.loopOf || (f.loops[l].parent.Some? && f.loops[l].parent.value == f.loopOf[b])
  }

  /**
   * The scan over the co-located phi's incoming values from position `i`,
   * by position: an incoming from outside gives the start, any other the
   * trip value; later ones overwrite earlier ones, and the scan stops once
   * both are found.
   */
  function ColocatedScan(f: Function, l: nat, co: nat, i: nat, start: Option<nat>, trip: Option<nat>): (r: (Option<nat>, Option<nat>))
    requires WellFormed(f) && l in f.loops && IsPhi(f, co) && i <= |f.insts[co].operands|
    requires start.Some? ==> start.value < |f.insts[co].operands| && FromOutside(f, l, f.insts[co].incomingBlocks[start.value])
    requires trip.Some? ==> trip.value < |f.insts[co].operands| && !FromOutside(f, l, f.insts[co].incomingBlocks[trip.value])
    ensures r.0.Some? ==> r.0.value < |f.insts[co].operands| && FromOutside(f, l, f.insts[co].incomingBlocks[r.0.value])
    ensures r.1.Some? ==> r.1.value < |f.insts[co].operands| && !FromOutside(f, l, f.insts[co].incomingBlocks[r.1.value])
    decreases |f.insts[co].operands| - i
  {
    var ph := f.insts[co];
    assert Arity(ph);
    if i == |ph.operands| || (start.Some? && trip.Some?) then (start, trip)
    else if FromOutside(f, l, ph.incomingBlocks[i]) then ColocatedScan(f, l, co, i + 1, Some(i), trip)
    else ColocatedScan(f, l, co, i + 1, start, Some(i))
  }

  /** The start atom and the trip expression the scan of `co`'s incoming values finds. */
  function ColocatedPair(f: Function, l: nat, co: nat): (Option<Expr>, Option<Expr>)
    requires WellFormed(f) && l in f.loops && IsPhi(f, co)
  {
    var (si, ti) := ColocatedScan(f, l, co, 0, None, None);
    var ops := f.insts[co].operands;
    assert InstsWellFormed(f);
    (if si.None? then None else assert ops[si.value] in f.values; Some(AtomOf(f, ops[si.value])),
     if ti.None? then None else assert ops[ti.value] in f.values; Some(GetExpr(Fasan, f, ops[ti.value])))
  }

  /**
   * `getColocatedLoopInfo(L, coPHI)`: (start, step) of a phi that moves in
   * step with the loop's induction variable.  The induction variable itself
   * gives its own start and step; any other phi needs an incoming value from
   * outside (its atom is the start) and one from inside (its expression, the
   * trip value, must be `coPHI + W`, and `W` is the step).
   */
  function ColocatedOf(f: Function, L: Option<nat>, co: nat): (r: Option<(Expr, Expr)>)
    requires WellFormed(f) && LoopOk(f, L) && IsPhi(f, co)
  {
    match LoopInfoOf(Fasan, f, L)
    case None => None
    case Some(ind) =>
      if ind.indvar == co then Some((ind.start, ind.step))
      else
        var (start, trip) := ColocatedPair(f, L.value, co);
        if start.None? || trip.None? then None
        else
          match WildStep(trip.value, co)
          case None => None
          case Some(step) => Some((start.value, step))
  }

  /**
   * A co-located phi other than the induction variable starts at the atom
   * of an incoming value from outside the loop, and in every consistent
   * execution the incoming value from inside equals the phi plus the step.
   */
  lemma {:induction false} ColocatedSound(f: Function, L: Option<nat>, co: nat, env: nat -> real)
    requires WellFormed(f) && LoopOk(f, L) && IsPhi(f, co) && Consistent(f, env)
    requires ColocatedOf(f, L, co).Some? && LoopInfoOf(Fasan, f, L).value.indvar != co
    ensures var r := ColocatedOf(f, L, co).value; var ph := f.insts[co];
      var (si, ti) := ColocatedScan(f, L.value, co, 0, None, None);
      si.Some? && ti.Some? && ph.operands[si.value] in f.values &&
      r.0 == AtomOf(f, ph.operands[si.value]) && !Has(r.1, Sym(Bound(co))) &&
      env(ph.operands[ti.value]) == env(co) + Eval(r.1, SymEnv(env))
  {
    var ph := f.insts[co];
    var (si, ti) := ColocatedScan(f, L.value, co, 0, None, None);
    assert InstsWellFormed(f);
    var v := ph.operands[ti.value];
    var trip := GetExpr(Fasan, f, v);
    var step := ColocatedOf(f, L, co).value.1;
    assert WildStep(trip, co) == Some(step);
    ExprForLoopSound(Fasan, f, None, v, env);
    MatchAddWildSound(trip, Sym(Bound(co)), SymEnv(env));
  }

  /** The source's `getColocatedLoopInfo`: `getLoopInfo`, then the scan of the incoming values. */
  method GetColocatedLoopInfo(f: Function, L: Option<nat>, co: nat, t: SymbolTable) returns (r: Option<(Expr, Expr)>)
    requires WellFormed(f) && LoopOk(f, L) && IsPhi(f, co) && t.Valid() && TableOf(t, f)
    modifies t
    ensures t.Valid() && TableOf(t, f) && r == ColocatedOf(f, L, co)
  {
    var info := GetLoopInfo(Fasan, f, L, t);
    if info.None? {
      r := None;
    } else if info.value.indvar == co {
      r := Some((info.value.start, info.value.step));
    } else {
      var start, trip := ScanIncomings(f, L.value, co, t);
      if start.None? || trip.None? {
        r := None;
      } else {
        var step := WildStep(trip.value, co);
        r := if step.None? then None else Some((start.value, step.value));
      }
    }
  }

  /** The loop over the co-located phi's incoming values with the flags `foundCoStart` and `foundCoTrip`. */
  method ScanIncomings(f: Function, l: nat, co: nat, t: SymbolTable) returns (start: Option<Expr>, trip: Option<Expr>)
    requires WellFormed(f) && l in f.loops && IsPhi(f, co) && t.Valid() && TableOf(t, f)
    modifies t
    ensures t.Valid() && TableOf(t, f) && (start, trip) == ColocatedPair(f, l, co)
  {
    var ph := f.insts[co];
    assert Arity(ph) && InstsWellFormed(f);
    ghost var si: Option<nat>, ti: Option<nat> := None, None;
    start, trip := None, None;
    var i := 0;
    while i < |ph.operands| && !(start.Some? && trip.Some?)
      invariant i <= |ph.operands| && ScanState(f, l, co, i, si, ti, start, trip)
      invariant t.Valid() && TableOf(t, f)
    {
      start, trip, si, ti := ScanStep(f, l, co, t, i, si, ti, start, trip);
      i := i + 1;
    }
    ScanStateDone(f, l, co, i, si, ti, start, trip);
  }

  /** One incoming value of the scan: one from outside the loop is the start, one from inside the trip. */
  method ScanStep(f: Function, l: nat, co: nat, t: SymbolTable, i: nat, ghost si: Option<nat>, ghost ti: Option<nat>,
                  start: Option<Expr>, trip: Option<Expr>)
    returns (start1: Option<Expr>, trip1: Option<Expr>, ghost si1: Option<nat>, ghost ti1: Option<nat>)
    requires WellFormed(f) && l in f.loops && IsPhi(f, co) && t.Valid() && TableOf(t, f)
    requires i < |f.insts[co].operands| && !(start.Some? && trip.Some?) && ScanState(f, l, co, i, si, ti, start, trip)
    modifies t
    ensures t.Valid() && TableOf(t, f) && ScanState(f, l, co, i + 1, si1, ti1, start1, trip1)
  {
    var ph := f.insts[co];
    assert Arity(ph) && InstsWellFormed(f);
    start1, trip1, si1, ti1 := start, trip, si, ti;
    if FromOutside(f, l, ph.incomingBlocks[i]) {
      var e := InternAtom(f, ph.operands[i], t);
      ScanStateStep(f, l, co, i, si, ti, start, trip, e);
      start1, si1 := Some(e), Some(i);
    } else {
      var e := BuildExprForLoop(Fasan, f, None, ph.operands[i], t);
      ScanStateStep(f, l, co, i, si, ti, start, trip, e);
      trip1, ti1 := Some(e), Some(i);
    }
  }

  /**
   * The state of `ScanIncomings` after `i` incoming values: the positions
   * found so far, the expressions built for them, and the rest of the scan
   * finishing as the whole scan does.
   */
  ghost predicate ScanState(f: Function, l: nat, co: nat, i: nat, si: Option<nat>, ti: Option<nat>,
                            start: Option<Expr>, trip: Option<Expr>)
    requires WellFormed(f) && l in f.loops && IsPhi(f, co)
  {
    var ph := f.insts[co];
    assert Arity(ph) && InstsWellFormed(f);
    i <= |ph.operands| && start.Some? == si.Some? && trip.Some? == ti.Some? &&
    (si.Some? ==> si.value < |ph.operands| && FromOutside(f, l, ph.incomingBlocks[si.value]) &&
                  start.value == AtomOf(f, ph.operands[si.value])) &&
    (ti.Some? ==> ti.value < |ph.operands| && !FromOutside(f, l, ph.incomingBlocks[ti.value]) &&
                  trip.value == GetExpr(Fasan, f, ph.operands[ti.value])) &&
    ColocatedScan(f, l, co, i, si, ti) == ColocatedScan(f, l, co, 0, None, None)
  }

  lemma {:induction false} ScanStateStep(f: Function, l: nat, co: nat, i: nat, si: Option<nat>, ti: Option<nat>,
                                         start: Option<Expr>, trip: Option<Expr>, e: Expr)
    requires WellFormed(f) && l in f.loops && IsPhi(f, co) && ScanState(f, l, co, i, si, ti, start, trip)
    requires i < |f.insts[co].operands| && !(start.Some? && trip.Some?)
    requires Arity(f.insts[co]) && f.insts[co].operands[i] in f.values
    requires FromOutside(f, l, f.insts[co].incomingBlocks[i]) ==> e == AtomOf(f, f.insts[co].operands[i])
    requires !FromOutside(f, l, f.insts[co].incomingBlocks[i]) ==> e == GetExpr(Fasan, f, f.insts[co].operands[i])
    ensures FromOutside(f, l, f.insts[co].incomingBlocks[i]) ==> ScanState(f, l, co, i + 1, Some(i), ti, Some(e), trip)
    ensures !FromOutside(f, l, f.insts[co].incomingBlocks[i]) ==> ScanState(f, l, co, i + 1, si, Some(i), start, Some(e))
  {
  }

  lemma {:induction false} ScanStateDone(f: Function, l: nat, co: nat, i: nat, si: Option<nat>, ti: Option<nat>,
                                         start: Option<Expr>, trip: Option<Expr>)
    requires WellFormed(f) && l in f.loops && IsPhi(f, co) && ScanState(f, l, co, i, si, ti, start, trip)
    requires i == |f.insts[co].operands| || (start.Some? && trip.Some?)
    ensures (start, trip) == ColocatedPair(f, l, co)
  {
    assert ColocatedScan(f, l, co, i, si, ti) == (si, ti);
  }
}
