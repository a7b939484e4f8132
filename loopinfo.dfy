/**
 * `LoopInfoExpr`: symbolic expressions of IR values relative to a loop, and
 * the recogniser of a loop's induction variable with its start, end and
 * step.  The RangedAddressSanitizer (`Fasan`) and SelectivePageMigration
 * (`Spm`) passes each carry a copy; `Pass` selects where the copies differ.
 */
module LoopInfo {
  import opened Wrappers
  import opened Bits
  import opened SymExpr
  import opened Intern
  import opened SymbolTables
  import opened Ir

  datatype Pass = Fasan | Spm

  /** `Expr(V)` for the value at `p`. */
  function AtomOf(f: Function, p: nat): (e: Expr)
    requires ValuesWellFormed(f) && p in f.values
    ensures Clean(e)
  {
    Atom(f.values[p])
  }

  predicate LoopOk(f: Function, L: Option<nat>) {
    L.Some? ==> L.value in f.loops
  }

  // ---------------------------------------------------------------------
  // getExprForLoop
  // ---------------------------------------------------------------------

  /**
   * `getExprForLoop(L, V)`: a value invariant in L (or, without a loop, a
   * non-instruction) is an atom; add, sub, mul, sdiv and udiv become the
   * symbolic operator on their operands' expressions; sext, zext and trunc
   * are transparent; in the Fasan copy a phi that is neither outside every
   * loop nor in its loop's header becomes its incoming values' common
   * expression, or an atom when they differ; everything else is an atom.
   */
  function ExprForLoop(pass: Pass, f: Function, L: Option<nat>, p: nat): Expr
    requires WellFormed(f) && p in f.values && LoopOk(f, L)
    decreases f.rank[p], 1
  {
    if L.Some? && Invariant(f, L.value, p) then AtomOf(f, p)
    else if L.None? && p !in f.insts then AtomOf(f, p)
    else
      var i := f.insts[p];
      assert Arity(i) && Ranked(f, p);
      if IsBinary(i.op) then Combine(i.op, ExprForLoop(pass, f, L, i.operands[0]), ExprForLoop(pass, f, L, i.operands[1]))
      else if IsCast(i.op) then ExprForLoop(pass, f, L, i.operands[0])
      else if ExpandsPhi(pass, f, p) && SameIncoming(pass, f, L, p) then ExprForLoop(pass, f, L, i.operands[0])
      else AtomOf(f, p)
  }

  predicate IsBinary(op: Opcode) {
    op.OpAdd? || op.OpSub? || op.OpMul? || op.OpSDiv? || op.OpUDiv?
  }

  predicate IsCast(op: Opcode) {
    op.OpSExt? || op.OpZExt? || op.OpTrunc?
  }

  /** The symbolic operator of an arithmetic opcode (sdiv and udiv alike). */
  function Combine(op: Opcode, a: Expr, b: Expr): Expr
    requires IsBinary(op)
  {
    match op
    case OpAdd => Plus(a, b)
    case OpSub => Minus(a, b)
    case OpMul => Times(a, b)
    case _ => Div(a, b)
  }

  /** The Fasan copy expands a phi that lies in a loop but not in that loop's header. */
  predicate ExpandsPhi(pass: Pass, f: Function, p: nat)
    requires p in f.insts
  {
    pass.Fasan? && f.insts[p].op.OpPhi? && f.insts[p].block in f.loopOf && !IsHeader(f, f.insts[p].block)
  }

  /** Every incoming value of the (non-header) phi `p` builds to the first one's expression. */
  predicate SameIncoming(pass: Pass, f: Function, L: Option<nat>, p: nat)
    requires WellFormed(f) && LoopOk(f, L) && p in f.insts && ExpandsPhi(pass, f, p)
    decreases f.rank[p], 0
  {
    var i := f.insts[p];
    assert Arity(i) && Ranked(f, p);
    forall k {:trigger i.operands[k]} :: 1 <= k < |i.operands| ==>
      ExprForLoop(pass, f, L, i.operands[k]) == ExprForLoop(pass, f, L, i.operands[0])
  }

  /** `getExpr(V)`: the expression without a loop. */
  function GetExpr(pass: Pass, f: Function, p: nat): Expr
    requires WellFormed(f) && p in f.values
  {
    ExprForLoop(pass, f, None, p)
  }

  /** The symbol table knows only values of `f`, under their own addresses. */
  predicate TableOf(t: SymbolTable, f: Function)
    reads t
  {
    forall w :: w in t.ids ==> w.ptr in f.values && f.values[w.ptr] == w
  }

  /** `Expr(V)` through the symbol table, as the source builds every atom. */
  method InternAtom(f: Function, p: nat, t: SymbolTable) returns (e: Expr)
    requires ValuesWellFormed(f) && p in f.values && t.Valid() && TableOf(t, f)
    modifies t
    ensures t.Valid() && TableOf(t, f) && e == AtomOf(f, p)
  {
    e := t.FromValue(f.values[p]);
  }

  /**
   * The source's recursive `getExprForLoop`, atoms interned in `t` and the
   * phi case comparing the incoming values one by one.
   */
  method BuildExprForLoop(pass: Pass, f: Function, L: Option<nat>, p: nat, t: SymbolTable) returns (e: Expr)
    requires WellFormed(f) && p in f.values && LoopOk(f, L) && t.Valid() && TableOf(t, f)
    modifies t
    ensures t.Valid() && TableOf(t, f)
    ensures e == ExprForLoop(pass, f, L, p)
    decreases f.rank[p], 1
  {
    if (L.Some? && Invariant(f, L.value, p)) || (L.None? && p !in f.insts) {
      e := InternAtom(f, p, t);
      return;
    }
    var i := f.insts[p];
    assert Arity(i) && Ranked(f, p);
    if IsBinary(i.op) {
      var a := BuildExprForLoop(pass, f, L, i.operands[0], t);
      var b := BuildExprForLoop(pass, f, L, i.operands[1], t);
      e := Combine(i.op, a, b);
    } else if IsCast(i.op) {
      e := BuildExprForLoop(pass, f, L, i.operands[0], t);
    } else if ExpandsPhi(pass, f, p) {
      e := BuildPhi(pass, f, L, p, t);
    } else {
      e := InternAtom(f, p, t);
    }
  }

  /** The expanded phi: the first incoming value's expression, unless a later one differs. */
  method BuildPhi(pass: Pass, f: Function, L: Option<nat>, p: nat, t: SymbolTable) returns (e: Expr)
    requires WellFormed(f) && p in f.insts && LoopOk(f, L) && t.Valid() && TableOf(t, f)
    requires ExpandsPhi(pass, f, p) && !(L.Some? && Invariant(f, L.value, p))
    modifies t
    ensures t.Valid() && TableOf(t, f)
    ensures e == (if SameIncoming(pass, f, L, p) then ExprForLoop(pass, f, L, f.insts[p].operands[0]) else AtomOf(f, p))
    decreases f.rank[p], 0
  {
    var ops := f.insts[p].operands;
    assert Arity(f.insts[p]) && Ranked(f, p);
    var first := BuildExprForLoop(pass, f, L, ops[0], t);
    var k := 1;
    while k < |ops|
      invariant 1 <= k <= |ops| && t.Valid() && TableOf(t, f)
      invariant Agree(pass, f, L, p, k, first)
    {
      var inExpr := BuildExprForLoop(pass, f, L, ops[k], t);
      if first != inExpr {
        Disagree(pass, f, L, p, k);
        e := InternAtom(f, p, t);
        return;
      }
      AgreeStep(pass, f, L, p, k, first);
      k := k + 1;
    }
    AgreeAll(pass, f, L, p, first);
    e := first;
  }

  /** The incoming values before the `k`-th all build to `first`. */
  predicate Agree(pass: Pass, f: Function, L: Option<nat>, p: nat, k: nat, first: Expr)
    requires WellFormed(f) && LoopOk(f, L) && p in f.insts && k <= |f.insts[p].operands|
  {
    var ops := f.insts[p].operands;
    assert InstsWellFormed(f) && forall j :: 0 <= j < |ops| ==> ops[j] in f.values;
    forall j {:trigger ops[j]} :: 1 <= j < k ==> ExprForLoop(pass, f, L, ops[j]) == first
  }

  lemma {:induction false} AgreeStep(pass: Pass, f: Function, L: Option<nat>, p: nat, k: nat, first: Expr)
    requires WellFormed(f) && LoopOk(f, L) && p in f.insts && k < |f.insts[p].operands|
    requires Agree(pass, f, L, p, k, first) && ExprForLoop(pass, f, L, f.insts[p].operands[k]) == first
    ensures Agree(pass, f, L, p, k + 1, first)
  {
    var ops := f.insts[p].operands;
    assert InstsWellFormed(f) && forall j :: 0 <= j < |ops| ==> ops[j] in f.values;
    forall j | 1 <= j < k + 1
      ensures ExprForLoop(pass, f, L, ops[j]) == first
    {
      if j < k {
        assert ops[j] == f.insts[p].operands[j];
      }
    }
  }

  lemma {:induction false} AgreeAll(pass: Pass, f: Function, L: Option<nat>, p: nat, first: Expr)
    requires WellFormed(f) && LoopOk(f, L) && p in f.insts && ExpandsPhi(pass, f, p) && |f.insts[p].operands| >= 1
    requires Agree(pass, f, L, p, |f.insts[p].operands|, first) && ExprForLoop(pass, f, L, f.insts[p].operands[0]) == first
    ensures SameIncoming(pass, f, L, p)
  {
  }

  lemma {:induction false} Disagree(pass: Pass, f: Function, L: Option<nat>, p: nat, k: nat)
    requires WellFormed(f) && LoopOk(f, L) && p in f.insts && ExpandsPhi(pass, f, p) && 1 <= k < |f.insts[p].operands|
    requires ExprForLoop(pass, f, L, f.insts[p].operands[k]) != ExprForLoop(pass, f, L, f.insts[p].operands[0])
    ensures !SameIncoming(pass, f, L, p)
  {
  }

  // ---------------------------------------------------------------------
  // What the expressions mean
  // ---------------------------------------------------------------------

  /** The symbols of an environment over value addresses. */
  function SymEnv(env: nat -> real): Symbol -> real {
    (s: Symbol) => if s.Bound? then env(s.value) else 0.0
  }

  /**
   * One instruction's equation in an execution without overflow and with
   * exact divisions: arithmetic on the operands' values, casts keeping the
   * value, and a phi outside a loop header holding one of its incoming
   * values.  Other instructions are unconstrained.
   */
  predicate Holds(f: Function, p: nat, env: nat -> real)
    requires p in f.insts
  {
    var i := f.insts[p];
    if IsBinary(i.op) then
      |i.operands| == 2 && ((i.op.OpSDiv? || i.op.OpUDiv?) ==> env(i.operands[1]) != 0.0) &&
      env(p) == Apply(i.op, env(i.operands[0]), env(i.operands[1]))
    else if IsCast(i.op) then |i.operands| == 1 && env(p) == env(i.operands[0])
    else if i.op.OpPhi? then IsHeader(f, i.block) || exists k :: 0 <= k < |i.operands| && env(p) == env(i.operands[k])
    else true
  }

  /** An execution snapshot of `f` in ideal arithmetic: constants are their signed values, instructions their equations. */
  predicate Consistent(f: Function, env: nat -> real)
    requires ValuesWellFormed(f)
  {
    (forall p :: p in f.values && f.values[p].kind.ConstantInt? ==> env(p) == AtomOf(f, p).c) &&
    (forall p :: p in f.insts ==> Holds(f, p, env))
  }

  lemma {:induction false} AtomMeaning(f: Function, p: nat, env: nat -> real)
    requires ValuesWellFormed(f) && p in f.values && Consistent(f, env)
    ensures Eval(AtomOf(f, p), SymEnv(env)) == env(p)
  {
  }

  /** The expression of `p` is Invalid or clean, and a clean one evaluates to the value of `p`. */
  predicate Denotes(pass: Pass, f: Function, L: Option<nat>, p: nat, env: nat -> real)
    requires WellFormed(f) && p in f.values && LoopOk(f, L)
  {
    var e := ExprForLoop(pass, f, L, p);
    (e == Invalid || Clean(e)) && (Clean(e) ==> Eval(e, SymEnv(env)) == env(p))
  }

  /**
   * The expression of a value denotes that value: in every consistent
   * execution, a built expression is Invalid or free of Invalid, and in the
   * latter case it evaluates to the value's own value.
   */
  lemma {:induction false} ExprForLoopSound(pass: Pass, f: Function, L: Option<nat>, p: nat, env: nat -> real)
    requires WellFormed(f) && p in f.values && LoopOk(f, L) && Consistent(f, env)
    ensures Denotes(pass, f, L, p, env)
    decreases f.rank[p], 1
  {
    if (L.Some? && Invariant(f, L.value, p)) || (L.None? && p !in f.insts) {
      AtomMeaning(f, p, env);
      return;
    }
    var i := f.insts[p];
    assert Arity(i) && Ranked(f, p);
    if IsBinary(i.op) {
      ExprForLoopSound(pass, f, L, i.operands[0], env);
      ExprForLoopSound(pass, f, L, i.operands[1], env);
      BinaryCase(pass, f, L, p, env);
    } else if IsCast(i.op) {
      ExprForLoopSound(pass, f, L, i.operands[0], env);
      CastCase(pass, f, L, p, env);
    } else if ExpandsPhi(pass, f, p) && SameIncoming(pass, f, L, p) {
      PhiSound(pass, f, L, p, env);
    } else {
      OtherCase(pass, f, L, p, env);
    }
  }

  lemma {:induction false} BinaryCase(pass: Pass, f: Function, L: Option<nat>, p: nat, env: nat -> real)
    requires WellFormed(f) && p in f.insts && LoopOk(f, L) && Consistent(f, env)
    requires !(L.Some? && Invariant(f, L.value, p)) && IsBinary(f.insts[p].op)
    requires Arity(f.insts[p]) && forall k :: 0 <= k < |f.insts[p].operands| ==> f.insts[p].operands[k] in f.values
    requires Denotes(pass, f, L, f.insts[p].operands[0], env) && Denotes(pass, f, L, f.insts[p].operands[1], env)
    ensures Denotes(pass, f, L, p, env)
  {
    var i := f.insts[p];
    var a, b := ExprForLoop(pass, f, L, i.operands[0]), ExprForLoop(pass, f, L, i.operands[1]);
    assert Holds(f, p, env);
    BinaryStep(i.op, a, b, SymEnv(env), env(i.operands[0]), env(i.operands[1]), env(p));
  }

  lemma {:induction false} CastCase(pass: Pass, f: Function, L: Option<nat>, p: nat, env: nat -> real)
    requires WellFormed(f) && p in f.insts && LoopOk(f, L) && Consistent(f, env)
    requires !(L.Some? && Invariant(f, L.value, p)) && IsCast(f.insts[p].op)
    requires Arity(f.insts[p]) && forall k :: 0 <= k < |f.insts[p].operands| ==> f.insts[p].operands[k] in f.values
    requires Denotes(pass, f, L, f.insts[p].operands[0], env)
    ensures Denotes(pass, f, L, p, env)
  {
    assert Holds(f, p, env);
  }

  lemma {:induction false} OtherCase(pass: Pass, f: Function, L: Option<nat>, p: nat, env: nat -> real)
    requires WellFormed(f) && p in f.insts && LoopOk(f, L) && Consistent(f, env)
    requires !(L.Some? && Invariant(f, L.value, p)) && !IsBinary(f.insts[p].op) && !IsCast(f.insts[p].op)
    requires !(ExpandsPhi(pass, f, p) && SameIncoming(pass, f, L, p))
    ensures Denotes(pass, f, L, p, env)
  {
    AtomMeaning(f, p, env);
  }

  /** The phi case of `ExprForLoopSound`: the common expression denotes the incoming value the phi holds. */
  lemma {:induction false} PhiSound(pass: Pass, f: Function, L: Option<nat>, p: nat, env: nat -> real)
    requires WellFormed(f) && p in f.insts && LoopOk(f, L) && Consistent(f, env)
    requires !(L.Some? && Invariant(f, L.value, p))
    requires ExpandsPhi(pass, f, p) && SameIncoming(pass, f, L, p)
    ensures Denotes(pass, f, L, p, env)
    decreases f.rank[p], 0
  {
    var ops := f.insts[p].operands;
    assert Arity(f.insts[p]) && Ranked(f, p) && Holds(f, p, env);
    var k :| 0 <= k < |ops| && env(p) == env(ops[k]);
    PhiExpr(pass, f, L, p, k);
    ExprForLoopSound(pass, f, L, ops[k], env);
  }

  /** An expanded phi builds to the expression of any one of its incoming values. */
  lemma {:induction false} PhiExpr(pass: Pass, f: Function, L: Option<nat>, p: nat, k: nat)
    requires WellFormed(f) && p in f.insts && LoopOk(f, L)
    requires !(L.Some? && Invariant(f, L.value, p))
    requires ExpandsPhi(pass, f, p) && SameIncoming(pass, f, L, p)
    requires k < |f.insts[p].operands| && f.insts[p].operands[k] in f.values
    ensures ExprForLoop(pass, f, L, p) == ExprForLoop(pass, f, L, f.insts[p].operands[k])
  {
    assert Arity(f.insts[p]) && Ranked(f, p);
  }

  /** The ideal-arithmetic result of an arithmetic opcode (sdiv and udiv alike). */
  function Apply(op: Opcode, x: real, y: real): real
    requires IsBinary(op)
  {
    match op
    case OpAdd => x + y
    case OpSub => x - y
    case OpMul => x * y
    case _ => if y == 0.0 then 0.0 else x / y
  }

  /** An arithmetic case of `ExprForLoopSound`: the operator on denoting operands denotes the operation. */
  lemma {:induction false} BinaryStep(op: Opcode, a: Expr, b: Expr, env: Symbol -> real, x: real, y: real, z: real)
    requires IsBinary(op) && ((op.OpSDiv? || op.OpUDiv?) ==> y != 0.0) && z == Apply(op, x, y)
    requires (a == Invalid || Clean(a)) && (Clean(a) ==> Eval(a, env) == x)
    requires (b == Invalid || Clean(b)) && (Clean(b) ==> Eval(b, env) == y)
    ensures var e := Combine(op, a, b); (e == Invalid || Clean(e)) && (Clean(e) ==> Eval(e, env) == z)
  {
    var e := Combine(op, a, b);
    if Clean(a) && Clean(b) {
      if op.OpAdd? {
        assert e == Plus(a, b);
        PlusDenotes(a, b, env, x, y);
      } else if op.OpSub? {
        assert e == Minus(a, b);
        MinusDenotes(a, b, env, x, y);
      } else if op.OpMul? {
        assert e == Times(a, b);
        TimesDenotes(a, b, env, x, y);
      } else {
        assert e == Div(a, b);
        DivDenotes(a, b, env, x, y);
      }
    } else {
      assert !IsValid(a) || !IsValid(b);
    }
  }

  lemma {:induction false} PlusDenotes(a: Expr, b: Expr, env: Symbol -> real, x: real, y: real)
    requires Clean(a) && Clean(b) && Eval(a, env) == x && Eval(b, env) == y
    ensures Clean(Plus(a, b)) && Eval(Plus(a, b), env) == x + y
  {
    CleanIsValid(a);
    CleanIsValid(b);
    CleanPlus(a, b);
    PlusSound(a, b, env);
  }

  lemma {:induction false} MinusDenotes(a: Expr, b: Expr, env: Symbol -> real, x: real, y: real)
    requires Clean(a) && Clean(b) && Eval(a, env) == x && Eval(b, env) == y
    ensures Clean(Minus(a, b)) && Eval(Minus(a, b), env) == x - y
  {
    CleanIsValid(a);
    CleanMinus(a, b);
    MinusSound(a, b, env);
  }

  lemma {:induction false} TimesDenotes(a: Expr, b: Expr, env: Symbol -> real, x: real, y: real)
    requires Clean(a) && Clean(b) && Eval(a, env) == x && Eval(b, env) == y
    ensures Clean(Times(a, b)) && Eval(Times(a, b), env) == x * y
  {
    CleanIsValid(a);
    CleanIsValid(b);
    CleanTimes(a, b);
    TimesSound(a, b, env);
  }

  /** A divisor that is not the constant 0 gives a clean quotient; a zero divisor gives a number or Invalid. */
  lemma {:induction false} DivDenotes(a: Expr, b: Expr, env: Symbol -> real, x: real, y: real)
    requires Clean(a) && Clean(b) && Eval(a, env) == x && Eval(b, env) == y
    ensures var e := Div(a, b); (e == Invalid || Clean(e)) && (Clean(e) && y != 0.0 ==> Eval(e, env) == x / y)
  {
    CleanIsValid(a);
    CleanIsValid(b);
    CleanDiv(a, b);
    if y != 0.0 {
      DivSound(a, b, env);
    }
  }
}
