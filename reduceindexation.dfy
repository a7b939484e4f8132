/**
 * `ReduceIndexation` (SelectivePageMigration): a pointer is decomposed into
 * the array it indexes and a symbolic byte offset, by walking down a chain
 * of `getelementptr` instructions.  Every GEP index moves the address by
 * `getExpr(index) * allocSize(indexed type)`; a struct index, a constant,
 * moves it past the fields before the chosen one.
 */
module ReduceIndexation {
  import opened Wrappers
  import opened SymExpr
  import opened Intern
  import opened SymbolTables
  import opened Ir
  import opened LoopInfo

  /** The LLVM types a GEP walks through; every other type is a scalar. */
  datatype Type =
    | PointerType(pointee: Type)
    | ArrayType(element: Type)
    | StructType(fields: seq<Type>)
    | ScalarType(id: nat)

  /**
   * What the reduction reads of the module: the type of every pointer a GEP
   * indexes, and `DataLayout::getTypeAllocSize`.
   */
  datatype Layout = Layout(typeOf: map<nat, Type>, allocSize: Type -> nat)

  /** The `Array` and `Subscript` out-parameters with the returned flag. */
  datatype Reduction = Reduction(ok: bool, arr: nat, offset: Expr)

  /** The result of the operand loop: the returned flag and `Subscript`. */
  datatype Walked = Walked(ok: bool, offset: Expr)

  const Two32: nat := 0x1_0000_0000

  /** An alloc size passed where the source takes an `unsigned`: its low 32 bits. */
  function Unsigned(n: nat): (r: nat)
    ensures r < Two32
    ensures n < Two32 ==> r == n
  {
    n % Two32
  }

  predicate IsGep(f: Function, p: nat) {
    p in f.insts && f.insts[p].op.OpGep?
  }

  /** `getPointerOperand()` of a GEP. */
  function Base(f: Function, p: nat): nat
    requires WellFormed(f) && IsGep(f, p)
  {
    assert Arity(f.insts[p]);
    f.insts[p].operands[0]
  }

  /** The index operands of a GEP, operand 1 onwards. */
  function Indices(f: Function, p: nat): seq<nat>
    requires WellFormed(f) && IsGep(f, p)
  {
    assert Arity(f.insts[p]);
    f.insts[p].operands[1..]
  }

  /** The type a pointer or array index moves to; any other type is kept. */
  function Indexed(ty: Type): Type {
    match ty
    case PointerType(e) => e
    case ArrayType(e) => e
    case _ => ty
  }

  /**
   * What a valid module guarantees of GEP indices (the `cast<ConstantInt>`
   * and `getElementType(Val)` of the source rely on it): an index into a
   * struct is an integer constant naming one of its fields.
   */
  predicate StepsTyped(f: Function, ty: Type, idxs: seq<nat>)
    decreases |idxs|
  {
    idxs == [] ||
    (idxs[0] in f.values &&
     if ty.StructType? then
       var k := f.values[idxs[0]].kind;
       k.ConstantInt? && 0 <= k.bits < |ty.fields| && StepsTyped(f, ty.fields[k.bits], idxs[1..])
     else StepsTyped(f, Indexed(ty), idxs[1..]))
  }

  /** The GEP chain above `p` is typed: each GEP's base has a known type and its indices fit it. */
  predicate Typed(f: Function, lay: Layout, p: nat)
    requires WellFormed(f) && p in f.values
    decreases f.rank[p]
  {
    IsGep(f, p) ==>
      assert Arity(f.insts[p]) && Ranked(f, p);
      Base(f, p) in lay.typeOf && StepsTyped(f, lay.typeOf[Base(f, p)], Indices(f, p)) &&
      Typed(f, lay, Base(f, p))
  }

  // ---------------------------------------------------------------------
  // The reduction, as a function of the IR
  // ---------------------------------------------------------------------

  /** The struct loop: the alloc size of each of the first `n` fields added to `sub`, one at a time. */
  function AddFieldSizes(sub: Expr, fields: seq<Type>, n: nat, size: Type -> nat): (r: Expr)
    requires n <= |fields|
    ensures !IsValid(sub) ==> r == Invalid
  {
    if n == 0 then sub else Plus(AddFieldSizes(sub, fields, n - 1, size), Num(Unsigned(size(fields[n - 1])) as real))
  }

  /** `getExpr` of each index, as the SelectivePageMigration copy of `LoopInfoExpr` builds it. */
  function IndexExprs(f: Function, idxs: seq<nat>): (es: seq<Expr>)
    requires WellFormed(f) && forall k :: 0 <= k < |idxs| ==> idxs[k] in f.values
    ensures |es| == |idxs|
    ensures forall k :: 0 <= k < |idxs| ==> es[k] == GetExpr(Spm, f, idxs[k])
  {
    seq(|idxs|, k requires 0 <= k < |idxs| => GetExpr(Spm, f, idxs[k]))
  }

  /**
   * The operand loop from type `ty` over the indices `idxs`, whose
   * expressions are `exprs`: a struct index adds the preceding fields'
   * sizes and moves to its field with no check; any other index first
   * moves from a pointer or array to its element, then adds
   * `getExpr(index) * allocSize` and stops with false once the offset is
   * Invalid.
   */
  function Walk(f: Function, lay: Layout, ty: Type, idxs: seq<nat>, exprs: seq<Expr>, sub: Expr): (w: Walked)
    requires StepsTyped(f, ty, idxs) && |exprs| == |idxs|
    ensures !w.ok ==> w.offset == Invalid
    ensures !IsValid(sub) ==> w.offset == Invalid
    decreases |idxs|
  {
    if idxs == [] then Walked(true, sub)
    else if ty.StructType? then
      var v := f.values[idxs[0]].kind.bits;
      Walk(f, lay, ty.fields[v], idxs[1..], exprs[1..], AddFieldSizes(sub, ty.fields, v, lay.allocSize))
    else
      var next := Plus(sub, Times(exprs[0], Num(Unsigned(lay.allocSize(Indexed(ty))) as real)));
      if !IsValid(next) then Walked(false, next)
      else Walk(f, lay, Indexed(ty), idxs[1..], exprs[1..], next)
  }

  /**
   * `reduceMemoryOp(Ptr, Array, Subscript)`: a GEP whose base reduces has
   * its indices walked from the base's type, the array being the base's;
   * a GEP whose base does not reduce, and any other pointer, is its own
   * array, with the offset as it stands.
   */
  function Reduce(f: Function, lay: Layout, p: nat, sub: Expr): (r: Reduction)
    requires WellFormed(f) && p in f.values && Typed(f, lay, p)
    ensures !r.ok ==> r.offset == Invalid
    ensures !IsValid(sub) ==> r.offset == Invalid
    ensures !IsGep(f, p) ==> r == Reduction(true, p, sub)
    decreases f.rank[p]
  {
    if IsGep(f, p) then
      assert Arity(f.insts[p]) && Ranked(f, p);
      var b := Reduce(f, lay, Base(f, p), sub);
      if b.ok then
        var w := Walk(f, lay, lay.typeOf[Base(f, p)], Indices(f, p), IndexExprs(f, Indices(f, p)), b.offset);
        Reduction(w.ok, b.arr, w.offset)
      else Reduction(true, p, b.offset)
    else Reduction(true, p, sub)
  }

  // ---------------------------------------------------------------------
  // The pass's methods
  // ---------------------------------------------------------------------

  /** Adds to `sub` the allocation sizes of the first `n` fields of a struct. */
  method AddFields(fields: seq<Type>, n: nat, size: Type -> nat, sub: Expr) returns (r: Expr)
    requires n <= |fields|
    ensures r == AddFieldSizes(sub, fields, n, size)
  {
    r := sub;
    var k := 0;
    while k < n
      invariant k <= n && r == AddFieldSizes(sub, fields, k, size)
    {
      r := Plus(r, Num(Unsigned(size(fields[k])) as real));
      k := k + 1;
    }
  }

  /** One pass of the operand loop over an index that is not into a struct. */
  method IndexStep(f: Function, lay: Layout, ty: Type, idx: nat, sub: Expr, t: SymbolTable) returns (next: Expr)
    requires WellFormed(f) && idx in f.values && t.Valid() && TableOf(t, f)
    modifies t
    ensures t.Valid() && TableOf(t, f)
    ensures next == Plus(sub, Times(GetExpr(Spm, f, idx), Num(Unsigned(lay.allocSize(Indexed(ty))) as real)))
  {
    var e := BuildExprForLoop(Spm, f, None, idx, t);
    next := Plus(sub, Times(e, Num(Unsigned(lay.allocSize(Indexed(ty))) as real)));
  }

  /**
   * One pass of the operand loop over the first of `idxs`: a struct index
   * adds the sizes of the fields before it, any other index its scaled
   * expression; `stop` says the offset became invalid.
   */
  method WalkStep(f: Function, lay: Layout, ty: Type, idxs: seq<nat>, ghost exprs: seq<Expr>, sub: Expr, t: SymbolTable)
    returns (ty1: Type, next: Expr, stop: bool)
    requires WellFormed(f) && t.Valid() && TableOf(t, f)
    requires StepsTyped(f, ty, idxs) && |exprs| == |idxs| && idxs != [] && exprs[0] == GetExpr(Spm, f, idxs[0])
    modifies t
    ensures t.Valid() && TableOf(t, f)
    ensures stop ==> Walked(false, next) == Walk(f, lay, ty, idxs, exprs, sub)
    ensures !stop ==>
      StepsTyped(f, ty1, idxs[1..]) && Walk(f, lay, ty1, idxs[1..], exprs[1..], next) == Walk(f, lay, ty, idxs, exprs, sub)
  {
    stop := false;
    if ty.StructType? {
      var v := f.values[idxs[0]].kind.bits;
      StructUnfold(f, lay, ty, idxs, exprs, sub);
      next := AddFields(ty.fields, v, lay.allocSize, sub);
      ty1 := ty.fields[v];
    } else {
      next := IndexStep(f, lay, ty, idxs[0], sub, t);
      IndexUnfold(f, lay, ty, idxs, exprs, sub, next);
      ty1 := Indexed(ty);
      stop := !IsValid(next);
    }
  }

  /** The operand loop of `reduceMemoryOp` over the indices of the GEP `p`, updating `Ty` and `Subscript`. */
  method WalkIndices(f: Function, lay: Layout, p: nat, sub: Expr, t: SymbolTable) returns (ok: bool, offset: Expr)
    requires WellFormed(f) && IsGep(f, p) && Base(f, p) in lay.typeOf
    requires StepsTyped(f, lay.typeOf[Base(f, p)], Indices(f, p))
    requires t.Valid() && TableOf(t, f)
    modifies t
    ensures t.Valid() && TableOf(t, f)
    ensures Walked(ok, offset) == Walk(f, lay, lay.typeOf[Base(f, p)], Indices(f, p), IndexExprs(f, Indices(f, p)), sub)
  {
    var idxs := Indices(f, p);
    ok, offset := WalkFrom(f, lay, lay.typeOf[Base(f, p)], idxs, IndexExprs(f, idxs), sub, t);
  }

  /** The operand loop itself, from the type `ty0` and the offset `sub`, over `idxs` whose expressions are `exprs`. */
  method WalkFrom(f: Function, lay: Layout, ty0: Type, idxs: seq<nat>, ghost exprs: seq<Expr>, sub: Expr, t: SymbolTable)
    returns (ok: bool, offset: Expr)
    requires WellFormed(f) && t.Valid() && TableOf(t, f) && StepsTyped(f, ty0, idxs) && |exprs| == |idxs|
    requires forall j :: 0 <= j < |idxs| ==> idxs[j] in f.values && exprs[j] == GetExpr(Spm, f, idxs[j])
    modifies t
    ensures t.Valid() && TableOf(t, f)
    ensures Walked(ok, offset) == Walk(f, lay, ty0, idxs, exprs, sub)
  {
    var ty := ty0;
    offset := sub;
    var k := 0;
    while k < |idxs|
      invariant k <= |idxs| && t.Valid() && TableOf(t, f)
      invariant StepsTyped(f, ty, idxs[k..])
      invariant Walk(f, lay, ty, idxs[k..], exprs[k..], offset) == Walk(f, lay, ty0, idxs, exprs, sub)
    {
      assert idxs[k..][1..] == idxs[k + 1..] && exprs[k..][1..] == exprs[k + 1..];
      assert idxs[k..][0] == idxs[k] && exprs[k..][0] == exprs[k];
      var stop;
      ty, offset, stop := WalkStep(f, lay, ty, idxs[k..], exprs[k..], offset, t);
      if stop {
        ok := false;
        return;
      }
      k := k + 1;
    }
    ok := true;
  }

  /** `reduceMemoryOp`: recursion down the GEP chain, then the operand loop. */
  method ReduceMemoryOp(f: Function, lay: Layout, p: nat, sub: Expr, t: SymbolTable) returns (r: Reduction)
    requires WellFormed(f) && p in f.values && Typed(f, lay, p) && t.Valid() && TableOf(t, f)
    modifies t
    ensures t.Valid() && TableOf(t, f) && r == Reduce(f, lay, p, sub)
    decreases f.rank[p]
  {
    if IsGep(f, p) {
      assert Arity(f.insts[p]) && Ranked(f, p);
      var b := ReduceMemoryOp(f, lay, Base(f, p), sub, t);
      if b.ok {
        var ok, offset := WalkIndices(f, lay, p, b.offset, t);
        r := Reduction(ok, b.arr, offset);
        return;
      }
      r := Reduction(true, p, b.offset);
      return;
    }
    r := Reduction(true, p, sub);
  }

  /** `getPointerOperand()` of a load (operand 0) or a store (operand 1). */
  function PointerOperand(f: Function, p: nat): (q: nat)
    requires WellFormed(f) && p in f.insts && (f.insts[p].op.OpLoad? || f.insts[p].op.OpStore?)
    ensures q in f.values
  {
    assert Arity(f.insts[p]);
    if f.insts[p].op.OpLoad? then f.insts[p].operands[0] else f.insts[p].operands[1]
  }

  /** `reduceLoad`: the reduction of the load's pointer operand, passed on unchanged. */
  method ReduceLoad(f: Function, lay: Layout, p: nat, sub: Expr, t: SymbolTable) returns (r: Reduction)
    requires WellFormed(f) && p in f.insts && f.insts[p].op.OpLoad?
    requires Typed(f, lay, PointerOperand(f, p)) && t.Valid() && TableOf(t, f)
    modifies t
    ensures t.Valid() && TableOf(t, f) && r == Reduce(f, lay, f.insts[p].operands[0], sub)
  {
    r := ReduceMemoryOp(f, lay, PointerOperand(f, p), sub, t);
  }

  /** `reduceStore`: the reduction of the store's pointer operand, passed on unchanged. */
  method ReduceStore(f: Function, lay: Layout, p: nat, sub: Expr, t: SymbolTable) returns (r: Reduction)
    requires WellFormed(f) && p in f.insts && f.insts[p].op.OpStore?
    requires Typed(f, lay, PointerOperand(f, p)) && t.Valid() && TableOf(t, f)
    modifies t
    ensures t.Valid() && TableOf(t, f) && r == Reduce(f, lay, f.insts[p].operands[1], sub)
  {
    r := ReduceMemoryOp(f, lay, PointerOperand(f, p), sub, t);
  }

  /** `reduceGetElementPtr`: the reduction of the GEP itself. */
  method ReduceGetElementPtr(f: Function, lay: Layout, p: nat, sub: Expr, t: SymbolTable) returns (r: Reduction)
    requires WellFormed(f) && IsGep(f, p) && Typed(f, lay, p) && t.Valid() && TableOf(t, f)
    modifies t
    ensures t.Valid() && TableOf(t, f) && r == Reduce(f, lay, p, sub)
  {
    r := ReduceMemoryOp(f, lay, p, sub, t);
  }

  // ---------------------------------------------------------------------
  // What the offset means
  // ---------------------------------------------------------------------

  /** The innermost pointer of the GEP chain above `p`. */
  function Root(f: Function, p: nat): (q: nat)
    requires WellFormed(f) && p in f.values
    ensures q in f.values && !IsGep(f, q)
    decreases f.rank[p]
  {
    if IsGep(f, p) then
      assert Arity(f.insts[p]) && Ranked(f, p);
      Root(f, Base(f, p))
    else p
  }

  /** The bytes taken by the first `n` fields of a struct laid out field after field. */
  function FieldBytes(fields: seq<Type>, n: nat, size: Type -> nat): real
    requires n <= |fields|
  {
    if n == 0 then 0.0 else FieldBytes(fields, n - 1, size) + size(fields[n - 1]) as real
  }

  /** The bytes the indices `idxs`, of values `vals`, move a pointer of type `ty`. */
  function StepBytes(f: Function, lay: Layout, ty: Type, idxs: seq<nat>, vals: seq<real>): real
    requires StepsTyped(f, ty, idxs) && |vals| == |idxs|
    decreases |idxs|
  {
    if idxs == [] then 0.0
    else if ty.StructType? then
      var v := f.values[idxs[0]].kind.bits;
      FieldBytes(ty.fields, v, lay.allocSize) + StepBytes(f, lay, ty.fields[v], idxs[1..], vals[1..])
    else vals[0] * lay.allocSize(Indexed(ty)) as real + StepBytes(f, lay, Indexed(ty), idxs[1..], vals[1..])
  }

  /** The values of `idxs` in the execution `env`. */
  function ValuesOf(idxs: seq<nat>, env: nat -> real): (vs: seq<real>)
    ensures |vs| == |idxs| && forall k :: 0 <= k < |idxs| ==> vs[k] == env(idxs[k])
  {
    seq(|idxs|, k requires 0 <= k < |idxs| => env(idxs[k]))
  }

  /** How far, in bytes, the address `p` lies past its root in the execution `env`. */
  function Distance(f: Function, lay: Layout, p: nat, env: nat -> real): real
    requires WellFormed(f) && p in f.values && Typed(f, lay, p)
    decreases f.rank[p]
  {
    if IsGep(f, p) then
      assert Arity(f.insts[p]) && Ranked(f, p);
      Distance(f, lay, Base(f, p), env) + StepBytes(f, lay, lay.typeOf[Base(f, p)], Indices(f, p), ValuesOf(Indices(f, p), env))
    else 0.0
  }

  /** Every alloc size fits the `unsigned` the source stores it in. */
  ghost predicate SizesFit(lay: Layout) {
    forall ty :: lay.allocSize(ty) < Two32
  }

  /** The struct loop adds the preceding fields' bytes. */
  lemma {:induction false} AddFieldSizesSound(sub: Expr, fields: seq<Type>, n: nat, size: Type -> nat, env: Symbol -> real)
    requires n <= |fields| && Clean(sub) && forall ty :: size(ty) < Two32
    ensures Clean(AddFieldSizes(sub, fields, n, size))
    ensures Eval(AddFieldSizes(sub, fields, n, size), env) == Eval(sub, env) + FieldBytes(fields, n, size)
  {
    if n > 0 {
      var a := AddFieldSizes(sub, fields, n - 1, size);
      AddFieldSizesSound(sub, fields, n - 1, size, env);
      CleanIsValid(a);
      CleanPlus(a, Num(Unsigned(size(fields[n - 1])) as real));
      PlusSound(a, Num(Unsigned(size(fields[n - 1])) as real), env);
    }
  }

  /** Adding a scaled index expression, Invalid or clean of value `v`, to a clean offset of value `x`. */
  lemma {:induction false} ScaledStepSound(sub: Expr, e: Expr, n: Expr, next: Expr, env: Symbol -> real, x: real, v: real, s: real)
    requires Clean(sub) && Eval(sub, env) == x && n == Num(s)
    requires e == Invalid || (Clean(e) && Eval(e, env) == v)
    requires next == Plus(sub, Times(e, n))
    ensures next == Invalid || (Clean(next) && Eval(next, env) == x + v * s)
  {
    if e != Invalid {
      CleanIsValid(sub);
      CleanTimes(e, n);
      var m := Times(e, n);
      CleanIsValid(m);
      CleanPlus(sub, m);
      TimesSound(e, n, env);
      PlusSound(sub, m, env);
    }
  }

  /** Each index expression is Invalid, or clean and of the index's value. */
  predicate IndicesMean(exprs: seq<Expr>, vals: seq<real>, env: Symbol -> real)
    requires |exprs| == |vals|
  {
    forall k :: 0 <= k < |exprs| ==> exprs[k] == Invalid || (Clean(exprs[k]) && Eval(exprs[k], env) == vals[k])
  }

  /** The clean outcomes of the operand loop from a clean offset `sub`. */
  predicate WalkMeans(f: Function, lay: Layout, ty: Type, idxs: seq<nat>, exprs: seq<Expr>, sub: Expr,
                      env: Symbol -> real, vals: seq<real>)
    requires StepsTyped(f, ty, idxs) && |exprs| == |idxs| == |vals|
  {
    var w := Walk(f, lay, ty, idxs, exprs, sub);
    w == Walked(false, Invalid) ||
    (w.ok && Clean(w.offset) && Eval(w.offset, env) == Eval(sub, env) + StepBytes(f, lay, ty, idxs, vals))
  }

  /** From a clean offset the operand loop fails with Invalid or ends clean, past the indices' bytes. */
  lemma {:induction false} WalkSound(f: Function, lay: Layout, ty: Type, idxs: seq<nat>, exprs: seq<Expr>, sub: Expr,
                                     env: Symbol -> real, vals: seq<real>)
    requires StepsTyped(f, ty, idxs) && |exprs| == |idxs| == |vals| && IndicesMean(exprs, vals, env)
    requires SizesFit(lay) && Clean(sub)
    ensures WalkMeans(f, lay, ty, idxs, exprs, sub, env, vals)
    decreases |idxs|, 2
  {
    if idxs == [] {
    } else if ty.StructType? {
      StructWalkSound(f, lay, ty, idxs, exprs, sub, env, vals);
    } else {
      IndexCaseSound(f, lay, ty, idxs, exprs, sub, env, vals);
    }
  }

  /** The case of `WalkSound` for an index that is not into a struct. */
  lemma {:induction false} IndexCaseSound(f: Function, lay: Layout, ty: Type, idxs: seq<nat>, exprs: seq<Expr>, sub: Expr,
                                          env: Symbol -> real, vals: seq<real>)
    requires StepsTyped(f, ty, idxs) && |exprs| == |idxs| == |vals| && IndicesMean(exprs, vals, env)
    requires SizesFit(lay) && Clean(sub) && idxs != [] && !ty.StructType?
    ensures WalkMeans(f, lay, ty, idxs, exprs, sub, env, vals)
    decreases |idxs|, 1
  {
    var next, s := IndexStepFacts(f, lay, ty, idxs, exprs, sub, vals);
    StepMeaning(sub, exprs, vals, env, s, next);
    IndexWalkSound(f, lay, ty, idxs, exprs, sub, env, vals, next, s);
  }

  /** One non-struct index: the offset it moves to, and the bytes `s` it scales the index by. */
  lemma {:induction false} IndexStepFacts(f: Function, lay: Layout, ty: Type, idxs: seq<nat>, exprs: seq<Expr>, sub: Expr,
                                          vals: seq<real>) returns (next: Expr, s: real)
    requires StepsTyped(f, ty, idxs) && |exprs| == |idxs| == |vals|
    requires SizesFit(lay) && idxs != [] && !ty.StructType?
    ensures next == Plus(sub, Times(exprs[0], Num(s)))
    ensures StepsTyped(f, Indexed(ty), idxs[1..])
    ensures Walk(f, lay, ty, idxs, exprs, sub) ==
      if !IsValid(next) then Walked(false, next) else Walk(f, lay, Indexed(ty), idxs[1..], exprs[1..], next)
    ensures StepBytes(f, lay, ty, idxs, vals) == vals[0] * s + StepBytes(f, lay, Indexed(ty), idxs[1..], vals[1..])
  {
    var size := Unsigned(lay.allocSize(Indexed(ty)));
    assert size == lay.allocSize(Indexed(ty));
    s := size as real;
    next := Plus(sub, Times(exprs[0], Num(s)));
    IndexUnfold(f, lay, ty, idxs, exprs, sub, next);
    IndexBytesUnfold(f, lay, ty, idxs, vals);
  }

  /** The offset after a non-struct index means the offset before plus the scaled index. */
  lemma {:induction false} StepMeaning(sub: Expr, exprs: seq<Expr>, vals: seq<real>, env: Symbol -> real, s: real, next: Expr)
    requires |exprs| == |vals| > 0 && IndicesMean(exprs, vals, env) && Clean(sub)
    requires next == Plus(sub, Times(exprs[0], Num(s)))
    ensures next == Invalid || (Clean(next) && Eval(next, env) == Eval(sub, env) + vals[0] * s)
  {
    var e, v, x := exprs[0], vals[0], Eval(sub, env);
    assert e == Invalid || (Clean(e) && Eval(e, env) == v);
    ScaledStepSound(sub, e, Num(s), next, env, x, v, s);
  }

  lemma {:induction false} IndicesMeanTail(exprs: seq<Expr>, vals: seq<real>, env: Symbol -> real)
    requires |exprs| == |vals| > 0 && IndicesMean(exprs, vals, env)
    ensures IndicesMean(exprs[1..], vals[1..], env)
  {
    forall k | 0 <= k < |exprs| - 1
      ensures exprs[1..][k] == exprs[k + 1] && vals[1..][k] == vals[k + 1]
    {
    }
  }

  lemma {:induction false} StructWalkSound(f: Function, lay: Layout, ty: Type, idxs: seq<nat>, exprs: seq<Expr>, sub: Expr,
                                           env: Symbol -> real, vals: seq<real>)
    requires StepsTyped(f, ty, idxs) && |exprs| == |idxs| == |vals| && IndicesMean(exprs, vals, env)
    requires SizesFit(lay) && Clean(sub) && idxs != [] && ty.StructType?
    ensures WalkMeans(f, lay, ty, idxs, exprs, sub, env, vals)
    decreases |idxs|, 0
  {
    var v := f.values[idxs[0]].kind.bits;
    var next := AddFieldSizes(sub, ty.fields, v, lay.allocSize);
    AddFieldSizesSound(sub, ty.fields, v, lay.allocSize, env);
    IndicesMeanTail(exprs, vals, env);
    WalkSound(f, lay, ty.fields[v], idxs[1..], exprs[1..], next, env, vals[1..]);
  }

  /** One non-struct index of the loop and of the reference, unfolded. */
  lemma {:induction false} IndexUnfold(f: Function, lay: Layout, ty: Type, idxs: seq<nat>, exprs: seq<Expr>, sub: Expr,
                                       next: Expr)
    requires StepsTyped(f, ty, idxs) && |exprs| == |idxs| && idxs != [] && !ty.StructType?
    requires next == Plus(sub, Times(exprs[0], Num(Unsigned(lay.allocSize(Indexed(ty))) as real)))
    ensures StepsTyped(f, Indexed(ty), idxs[1..])
    ensures Walk(f, lay, ty, idxs, exprs, sub) ==
      if !IsValid(next) then Walked(false, next) else Walk(f, lay, Indexed(ty), idxs[1..], exprs[1..], next)
  {
  }

  lemma {:induction false} StructUnfold(f: Function, lay: Layout, ty: Type, idxs: seq<nat>, exprs: seq<Expr>, sub: Expr)
    requires StepsTyped(f, ty, idxs) && |exprs| == |idxs| && idxs != [] && ty.StructType?
    ensures var v := f.values[idxs[0]].kind.bits;
      0 <= v < |ty.fields| && StepsTyped(f, ty.fields[v], idxs[1..]) &&
      Walk(f, lay, ty, idxs, exprs, sub) ==
        Walk(f, lay, ty.fields[v], idxs[1..], exprs[1..], AddFieldSizes(sub, ty.fields, v, lay.allocSize))
  {
  }

  lemma {:induction false} IndexBytesUnfold(f: Function, lay: Layout, ty: Type, idxs: seq<nat>, vals: seq<real>)
    requires StepsTyped(f, ty, idxs) && |vals| == |idxs| && idxs != [] && !ty.StructType?
    ensures StepsTyped(f, Indexed(ty), idxs[1..])
    ensures StepBytes(f, lay, ty, idxs, vals) ==
      vals[0] * lay.allocSize(Indexed(ty)) as real + StepBytes(f, lay, Indexed(ty), idxs[1..], vals[1..])
  {
  }

  /** The tail of the loop after a non-struct index moved the offset from `sub` to `next`. */
  lemma {:induction false} IndexWalkSound(f: Function, lay: Layout, ty: Type, idxs: seq<nat>, exprs: seq<Expr>, sub: Expr,
                                          env: Symbol -> real, vals: seq<real>, next: Expr, s: real)
    requires StepsTyped(f, ty, idxs) && |exprs| == |idxs| == |vals| && IndicesMean(exprs, vals, env)
    requires SizesFit(lay) && Clean(sub) && idxs != [] && !ty.StructType?
    requires StepsTyped(f, Indexed(ty), idxs[1..])
    requires Walk(f, lay, ty, idxs, exprs, sub) ==
      if !IsValid(next) then Walked(false, next) else Walk(f, lay, Indexed(ty), idxs[1..], exprs[1..], next)
    requires StepBytes(f, lay, ty, idxs, vals) == vals[0] * s + StepBytes(f, lay, Indexed(ty), idxs[1..], vals[1..])
    requires next == Invalid || (Clean(next) && Eval(next, env) == Eval(sub, env) + vals[0] * s)
    ensures WalkMeans(f, lay, ty, idxs, exprs, sub, env, vals)
    decreases |idxs|, 0
  {
    if next != Invalid {
      CleanIsValid(next);
      IndicesMeanTail(exprs, vals, env);
      WalkSound(f, lay, Indexed(ty), idxs[1..], exprs[1..], next, env, vals[1..]);
    }
  }

  /** In a consistent execution the index expressions of a GEP mean the indices' values. */
  lemma {:induction false} IndexExprsSound(f: Function, idxs: seq<nat>, env: nat -> real)
    requires WellFormed(f) && (forall k :: 0 <= k < |idxs| ==> idxs[k] in f.values) && Consistent(f, env)
    ensures IndicesMean(IndexExprs(f, idxs), ValuesOf(idxs, env), SymEnv(env))
  {
    forall k | 0 <= k < |idxs|
      ensures Denotes(Spm, f, None, idxs[k], env)
    {
      ExprForLoopSound(Spm, f, None, idxs[k], env);
    }
  }

  /**
   * The offset means what it is for: from a clean offset, the reduction of
   * `p` gives Invalid, or succeeds with the root of the GEP chain as the
   * array and an offset that, in every consistent execution, has grown by
   * exactly the bytes between that root and `p`.
   */
  lemma {:induction false} ReduceSound(f: Function, lay: Layout, p: nat, sub: Expr, env: nat -> real)
    requires WellFormed(f) && p in f.values && Typed(f, lay, p) && Consistent(f, env) && SizesFit(lay) && Clean(sub)
    ensures var r := Reduce(f, lay, p, sub);
      r.offset == Invalid ||
      (r.ok && r.arr == Root(f, p) && Clean(r.offset) &&
       Eval(r.offset, SymEnv(env)) == Eval(sub, SymEnv(env)) + Distance(f, lay, p, env))
    decreases f.rank[p]
  {
    if IsGep(f, p) {
      assert Arity(f.insts[p]) && Ranked(f, p);
      var b := Reduce(f, lay, Base(f, p), sub);
      ReduceSound(f, lay, Base(f, p), sub, env);
      if b.ok && b.offset != Invalid {
        var idxs := Indices(f, p);
        IndexExprsSound(f, idxs, env);
        WalkSound(f, lay, lay.typeOf[Base(f, p)], idxs, IndexExprs(f, idxs), b.offset, SymEnv(env), ValuesOf(idxs, env));
        assert WalkMeans(f, lay, lay.typeOf[Base(f, p)], idxs, IndexExprs(f, idxs), b.offset, SymEnv(env), ValuesOf(idxs, env));
      }
    }
  }

  /**
   * A GEP whose base does not reduce is reported as reduced, being its own
   * array, with the Invalid offset the base's walk left behind.
   */
  lemma {:induction false} BaseFailureReportsGep(f: Function, lay: Layout, p: nat, sub: Expr)
    requires WellFormed(f) && IsGep(f, p) && Typed(f, lay, p)
    requires !Reduce(f, lay, Base(f, p), sub).ok
    ensures Reduce(f, lay, p, sub) == Reduction(true, p, Invalid)
  {
    assert Arity(f.insts[p]) && Ranked(f, p);
  }
}
