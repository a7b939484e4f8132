# Symbolic range analyses for loop instrumentation, in Dafny

This project models the analysis core of a set of LLVM passes that hoist
memory checks and memory requests out of loops, together with the runtime
code those passes call:

- **RangedAddressSanitizer (FASan)** and **SelectivePageMigration (SPM)**.
  For every load and store inside a simple loop, they build symbolic
  expressions for the address. The index is reduced to an array plus a
  symbolic subscript. They bound the subscript by a symbolic minimum and
  maximum over the loop nest, using the loops' induction variables. One
  record is kept per (preheader, array), and duplicates are merged. Each
  record becomes a single runtime call before the loop: `__fasan_check`
  for FASan, `__spm_get` / `__spm_give` for SPM.
- **Reuse**. It builds a per-iteration step function for a loop's phis,
  composes it over the trip count, and places `__pact_reuse_add` calls
  for the GEPs that index with the phi.
- **Trip counts (DepGraph)**. The trip-count generator and profiler find
  a loop's controller block and build the estimate `|Op1 - Op2|` (+1 for
  inclusive predicates). They count header executions and report them to
  the profiler runtime. The loop-structure statistics pass tallies SCCs by
  their number of paths.
- **Runtimes**. The FASan probe loop `__fasan_check`, the SPM
  page-interval table (`PageIntervals::insert` / `join`) with the page
  range `__spm_get` computes, and the trip-count profiler's linked list of
  loop statistics.  In the runtime as shipped, the insertion into the
  interval table inside `__spm_get` is commented out
  (SelectivePageMigrationRuntime.cpp:206-224), so the table is modelled as
  the runtime defines it but no run-time call fills it.

Modelling choices:

- **GiNaC.** GiNaC is not part of this model. Its place is taken by
  `SymExpr`, a canonical form of its own built by smart constructors.
  `Eval` over the reals is the reference semantics, and every operator is
  proved sound against it. The three expression wrappers (RAS `Expr`,
  SPM `Expr`, Reuse `RExpr`) share this one module.
- **Two sets of interval rules.** The interval analysis (`MinMax`) and
  the call-site records take a `Rule`. With `AsWritten` they compute what
  the source computes, defects included. With `Corrected` they use the
  repaired rules of "## Findings", and the soundness theorems
  (`MinMaxSound`, `CallForSound`, `CheckCoversAccess`) are proved for
  those. Each defect has a lemma with an input that shows it.
- **Two copies of the passes.** Where the FASan and SPM copies of
  `LoopInfoExpr` and `RelativeMinMax` differ, the functions take a
  `Pass` parameter (`Fasan | Spm`).
- **The IR.** LLVM IR is an abstract function (`Ir.Function`: values,
  instructions, loop forest, terminators). Control flow is a `Cfg.Graph`
  (blocks, predecessors, dominance, exit blocks, dominator post-order).
  An execution snapshot is an environment from values to reals or bit
  patterns (`Consistent`, in ideal arithmetic).
- **Stateful code.** The symbol cache of `Expr(Value*)`, the `Calls_`
  set, the page-interval map, the profiler list and the SCC census are
  classes whose methods state their whole new state. The loops of the
  source are methods with invariants, each proved to compute a
  specification function.

## Model

| member | source | states |
|---|---|---|
| SymExpr.PlusSound | src/RangedAddressSanitizer/Expr.cpp:369-379 | for operands free of the Invalid symbol, the canonical sum evaluates to the real sum of the operands' values |
| SymExpr.CleanPlus | src/RangedAddressSanitizer/Expr.cpp:369-379 | a sum of clean operands is clean, hence valid |
| SymExpr.TimesSound | src/RangedAddressSanitizer/Expr.cpp:393-403 | the canonical product evaluates to the real product of the operands' values |
| SymExpr.CleanTimes | src/RangedAddressSanitizer/Expr.cpp:393-403 | a product of clean operands is clean |
| SymExpr.MinusSound | src/RangedAddressSanitizer/Expr.cpp:381-391 | `a - b`, built as `a + (-1)*b`, evaluates to the real difference when the subtrahend is clean |
| SymExpr.CleanMinus | src/RangedAddressSanitizer/Expr.cpp:381-391 | a difference of clean operands is clean |
| SymExpr.DivSound | src/RangedAddressSanitizer/Expr.cpp:405-415 | division by an operand whose value is not zero evaluates to real division |
| SymExpr.CleanDiv | src/RangedAddressSanitizer/Expr.cpp:405-415 | a quotient of clean operands with a divisor other than the number 0 is clean |
| SymExpr.Div | src/RangedAddressSanitizer/Expr.cpp:405-415 | dividing by the number 0 gives Invalid (GiNaC throws); an Invalid operand gives Invalid |
| SymExpr.PowerSound | src/RangedAddressSanitizer/Expr.cpp:417-427 | a power with a clean base and an integral constant exponent evaluates to the base's value raised to it, when that value is defined |
| SymExpr.SymMinSound | src/RangedAddressSanitizer/Expr.cpp:429-433 | `min` evaluates to the smaller of the operands' values |
| SymExpr.SymMaxSound | src/RangedAddressSanitizer/Expr.cpp:435-439 | `max` evaluates to the larger of the operands' values |
| SymExpr.SymbolsHas | src/RangedAddressSanitizer/Expr.cpp:222-228 | a symbol is listed by `getSymbols` exactly when `has` finds it in the expression, both directions |
| SymExpr.CleanSymbols | src/RangedAddressSanitizer/Expr.cpp:222-228 | an expression is clean exactly when `getSymbols` lists no Invalid symbol, both directions |
| SymExpr.EvalAgree | src/RangedAddressSanitizer/Expr.cpp:222-228 | two environments that agree on every listed symbol give the expression the same value |
| SymExpr.SubsSound | src/RangedAddressSanitizer/Expr.cpp:441-443 | substituting clean expressions stays clean, and `subs(s, y)` evaluates to the expression evaluated with `s` bound to the value of `y` |
| SymExpr.MatchAddWildSound | src/RangedAddressSanitizer/Expr.cpp:445-451 | a successful `p + Wild` match splits the value into p's value plus the binding's value |
| SymExpr.MatchMulWildSound | src/RangedAddressSanitizer/Expr.cpp:445-451 | a successful `p * Wild` match splits the value into p's value times the binding's value |
| SymExpr.MatchSubImpliesAdd | src/Reuse/Reuse.cpp:168-172 | anything matching `p - Wild` also matches `p + Wild`, and that pattern is tried first |
| SymExpr.MatchAddWildPlus | src/Reuse/Reuse.cpp:310-325 | round trip: add a symbol `p` to a canonical non-zero `w` that does not mention it, then match `p + Wild`, and the binding is exactly `w` |
| SymExpr.HasInAt | src/RangedAddressSanitizer/Expr.cpp:453-455 | `has` finds an operand of a sum or product among its operands |
| Intern.ParseNatToString | src/RangedAddressSanitizer/Expr.cpp:97-112 | the decimal id written by `std::to_string` parses back to the id |
| Intern.NameDeterminesId | src/RangedAddressSanitizer/Expr.cpp:97-112 | the generated name `<base>.<id>` determines the id and the base, so distinct ids give distinct names |
| Intern.InvalidNameNotGenerated | src/RangedAddressSanitizer/Expr.cpp:457-460 | no generated name collides with the `__INVALID__` symbol's name |
| Intern.Atom | src/RangedAddressSanitizer/Expr.cpp:114-131 | the atom of a value is clean, and it is a number exactly for a ConstantInt, an integral one |
| Intern.ValidAfterRecord | src/RangedAddressSanitizer/Expr.cpp:114-131 | recording a new value under the next id keeps the cache's invariant: ids, names and values stay mutually inverse |
| Intern.FreshName | src/RangedAddressSanitizer/Expr.cpp:97-112 | the next id's name has not been handed out yet |
| SymbolTables.SymbolTable.constructor | src/RangedAddressSanitizer/Expr.cpp:114-131 | the cache starts empty, with the counter at 0 |
| SymbolTables.SymbolTable.GetName | src/RangedAddressSanitizer/Expr.cpp:97-112 | the first request draws a fresh id from the counter; later requests give the same name and change nothing |
| SymbolTables.SymbolTable.FromValue | src/RangedAddressSanitizer/Expr.cpp:114-131 | a ConstantInt becomes the number of its sign-extended value; a cached value gives its cached symbol; any other value gets a fresh symbol, recorded in the three maps |
| SymbolTables.SymbolTable.Record | src/RangedAddressSanitizer/Expr.cpp:121-130 | the miss path adds the symbol, the id and the name in one step and keeps the invariant |
| SymbolTables.SymbolTable.SymbolValueInverts | src/RangedAddressSanitizer/Expr.cpp:240-242 | `getSymbolValue` of a cached value's symbol gives back that value |
| SymbolTables.SymbolTable.InvalidHasNoValue | src/RangedAddressSanitizer/Expr.cpp:240-242 | the Invalid symbol stands for no value |
| SymbolTables.SymbolTable.SymbolsDistinct | src/RangedAddressSanitizer/Expr.cpp:114-131 | distinct cached values never share a symbol |
| SymbolTables.SymbolTable.GetValue | src/RangedAddressSanitizer/Expr.cpp:244-263 | a number becomes a constant of the requested width, truncated toward zero; a symbol becomes its value exactly when it has one; any other shape gives null |
| SymbolTables.LoweredSymbolMeaning | src/RangedAddressSanitizer/Expr.cpp:253-261 | a symbol lowered to a wider type keeps its signed value, to its own type its bits, and to a narrower type its low bits |
| Lowering.GetExprValue | src/RangedAddressSanitizer/Expr.cpp:276-351 | the emitted value is the pattern `ExprBits` describes, or null where the source returns null |
| Lowering.SumValue | src/RangedAddressSanitizer/Expr.cpp:300-327 | the `add` accumulator loop over a sum's terms computes `SumBits` from a null accumulator |
| Lowering.ProdValue | src/RangedAddressSanitizer/Expr.cpp:300-327 | the `mul` accumulator loop over a product's factors computes `ProdBits` from a null accumulator |
| Lowering.FactorValue | src/RangedAddressSanitizer/Expr.cpp:305-320 | one factor of the product loop computes `FactorBits` |
| Lowering.ExprBits | src/RangedAddressSanitizer/Expr.cpp:330-345 | every pattern fits the width; a Min node chooses one child's pattern, whose signed value is at most both children's, and a Max node likewise at least both |
| Lowering.SDiv | src/RangedAddressSanitizer/Expr.cpp:305-320 | `sdiv` is defined exactly when the divisor's signed value is non-zero, and then it is the quotient truncated toward zero, wrapped to the width |
| Lowering.BitsAgree | src/RangedAddressSanitizer/Expr.cpp:300-327 | on integer polynomials whose symbols lower to their values, the emitted code computes the integer value modulo 2^w |
| Lowering.RingLowers | src/RangedAddressSanitizer/Expr.cpp:276-351 | such a polynomial has an integral real value, and the emitted pattern is that value reduced modulo 2^w |
| Lowering.IntEvalAgrees | src/RangedAddressSanitizer/Expr.cpp:300-327 | on integer polynomials the real semantics equals the integer reference |
| Lowering.FactorAgrees | src/RangedAddressSanitizer/Expr.cpp:322-325 | an integer factor is lowered and multiplied into the accumulator, modulo 2^w |
| Lowering.SumAgrees | src/RangedAddressSanitizer/Expr.cpp:300-327 | continuing the add chain from an accumulator adds the terms' integer sum, modulo 2^w |
| Lowering.ProdAgrees | src/RangedAddressSanitizer/Expr.cpp:300-327 | continuing the mul chain from an accumulator multiplies by the factors' integer product, modulo 2^w |
| Lowering.RationalFactor | src/RangedAddressSanitizer/Expr.cpp:305-320 | a rational factor c = n/d turns the accumulated signed value x into x*c truncated toward zero, while x*n and d are representable |
| Lowering.RationalDivision | src/RangedAddressSanitizer/Expr.cpp:305-320 | multiplying by n and `sdiv`-ing by d truncates x*(n/d) toward zero |
| Lowering.TruncDivMeaning | src/RangedAddressSanitizer/Expr.cpp:305-320 | C division toward zero is the `(long)` truncation of the real quotient |
| Ir.FindToplevel | src/RangedAddressSanitizer/LoopInfoExpr.cpp:219-221 | the `getParentLoop` walk ends at the outermost loop around `l`, which contains all of `l`'s blocks |
| LoopInfo.BuildExprForLoop | src/RangedAddressSanitizer/LoopInfoExpr.cpp:74-127 | the recursive builder, atoms interned in the table, computes `ExprForLoop` and keeps the table's invariant |
| LoopInfo.BuildPhi | src/RangedAddressSanitizer/LoopInfoExpr.cpp:100-125 | an expanded phi gives its first incoming value's expression when every incoming value builds to it, and its own atom otherwise |
| LoopInfo.InternAtom | src/RangedAddressSanitizer/LoopInfoExpr.cpp:74-127 | `Expr(V)` through the table gives the value's atom |
| LoopInfo.ExprForLoopSound | src/RangedAddressSanitizer/LoopInfoExpr.cpp:74-127 | in every consistent execution, a built expression is Invalid or clean, and a clean one evaluates to the value |
| LoopInfo.PhiSound | src/RangedAddressSanitizer/LoopInfoExpr.cpp:100-125 | the common expression of an expanded phi denotes the incoming value the phi holds |
| LoopInfo.BinaryStep | src/RangedAddressSanitizer/LoopInfoExpr.cpp:74-127 | the symbolic operator on denoting operands denotes the arithmetic operation |
| LoopInfo.AtomMeaning | src/RangedAddressSanitizer/Expr.cpp:114-131 | an atom evaluates to its value's value |
| Induction.IsLoopInvariant | src/RangedAddressSanitizer/LoopInfoExpr.cpp:29-35 | the scan with its early exit answers whether every symbol is bound to a value invariant in the loop |
| Induction.ExprInvariantStable | src/RangedAddressSanitizer/LoopInfoExpr.cpp:29-35 | two executions that agree on the loop's invariant values give an invariant expression the same value |
| Induction.GetSingleLoopVariantPhi | src/RangedAddressSanitizer/LoopInfoExpr.cpp:390-407 | the loop over `getSymbols` computes the scan's chosen phi |
| Induction.ScanPhiChooses | src/RangedAddressSanitizer/LoopInfoExpr.cpp:390-407 | the scan chooses `q` exactly when `q` occurs selectable with only skippable symbols before it and only invariant ones after it, both directions |
| Induction.ExitCompare | src/RangedAddressSanitizer/LoopInfoExpr.cpp:186-216 | the compare is found only for a single exiting block ending in a conditional branch on a compare |
| Induction.CompareOf | src/RangedAddressSanitizer/LoopInfoExpr.cpp:219-245 | an accepted predicate, both sides valid relative to the outermost loop, and exactly one side invariant |
| Induction.SplitSides | src/RangedAddressSanitizer/LoopInfoExpr.cpp:233-245 | the variant and invariant sides are the two operands, exactly one of them invariant |
| Induction.BlockIndex | src/RangedAddressSanitizer/LoopInfoExpr.cpp:255-269 | `getBasicBlockIndex` is the first position of the block among the incoming blocks, or -1 when it has none |
| Induction.Incomings | src/RangedAddressSanitizer/LoopInfoExpr.cpp:255-269 | the (preheader, latch) incoming values; the FASan reading fails when the latch index leaves {0, 1} |
| Induction.WildStep | src/RangedAddressSanitizer/LoopInfoExpr.cpp:273-298 | a step is reported only for a `Phi + Wild` match with one binding that does not mention the phi |
| Induction.EndOfMeaning | src/RangedAddressSanitizer/LoopInfoExpr.cpp:305-332 | the end is the bound moved by the predicate's correction and by nothing else |
| Induction.FromSides | src/RangedAddressSanitizer/LoopInfoExpr.cpp:273-332 | the single variant phi, its incoming values with the right variance, the step and the corrected end |
| Induction.LoopInfoOf | src/RangedAddressSanitizer/LoopInfoExpr.cpp:183-364 | an answer needs an existing loop (a null loop fails in the FASan copy) whose exit compare passes the checks of `CompareOf` |
| Induction.CompareSound | src/RangedAddressSanitizer/LoopInfoExpr.cpp:219-245 | an answer's compare is the exiting block's condition, and its sides are its operands' expressions |
| Induction.InductionPhi | src/RangedAddressSanitizer/LoopInfoExpr.cpp:255-304 | the induction variable is a loop-variant phi (FASan: of the header) whose preheader incoming value is invariant and whose latch incoming value is variant |
| Induction.InductionStep | src/RangedAddressSanitizer/LoopInfoExpr.cpp:273-298 | in every consistent execution the latch value is the induction variable plus the step, and the step does not mention the variable |
| Induction.InductionStart | src/RangedAddressSanitizer/LoopInfoExpr.cpp:302-304 | the start is the preheader incoming value's expression and denotes it when valid |
| Induction.InductionEnd | src/RangedAddressSanitizer/LoopInfoExpr.cpp:305-332 | the end is the invariant side less one for `<`, plus one for `>`, unchanged for `<=` and `>=`, and for EQ shifted by the step's direction |
| Induction.InductionOffset | src/RangedAddressSanitizer/LoopInfoExpr.cpp:273-298 | (FASan) the variant side is the induction variable plus an offset free of it |
| Induction.GetLoopInfo | src/RangedAddressSanitizer/LoopInfoExpr.cpp:183-364 | the step-by-step method, with interning and the scanning methods, computes `LoopInfoOf` |
| Induction.CompareStep | src/RangedAddressSanitizer/LoopInfoExpr.cpp:186-245 | the method part up to the choice of sides computes `CompareOf` |
| Induction.SplitStep | src/RangedAddressSanitizer/LoopInfoExpr.cpp:233-245 | the variance test computes `SplitSides` |
| Induction.FromSidesStep | src/RangedAddressSanitizer/LoopInfoExpr.cpp:248-364 | the part after the sides computes `FromSides` |
| Induction.GetLoopForInductionVariable | src/RangedAddressSanitizer/LoopInfoExpr.cpp:63-72 | the method computes `LoopForIndvar`: the loop the phi's block heads, when `getLoopInfo` names the phi |
| Induction.LoopForIndvar | src/RangedAddressSanitizer/LoopInfoExpr.cpp:52-72 | a loop is returned only when its `getLoopInfo` names the phi as the induction variable |
| Induction.LoopForIndvarRoundTrip | src/RangedAddressSanitizer/LoopInfoExpr.cpp:52-72 | round trip: the loop found for an induction variable of loop `l` (FASan: every one; SPM: one in `l`'s header) is `l` |
| Induction.GetColocatedLoopInfo | src/RangedAddressSanitizer/LoopInfoExpr.cpp:135-181 | the method computes the co-located (start, step) pair |
| Induction.ColocatedScan | src/RangedAddressSanitizer/LoopInfoExpr.cpp:150-175 | an incoming value from outside the loop gives the start, any other the trip value; later ones of the same kind are ignored |
| Induction.ColocatedSound | src/RangedAddressSanitizer/LoopInfoExpr.cpp:135-181 | a co-located phi starts at an incoming value from outside, and in every consistent execution its latch value is its value plus its step |
| Induction.ScanIncomings | src/RangedAddressSanitizer/LoopInfoExpr.cpp:150-175 | the loop with the flags `foundCoStart` and `foundCoTrip` computes the scan's positions |
| MinMax.AddMinMaxSound | src/RangedAddressSanitizer/RelativeMinMax.cpp:44-48 | the sum of two bracketed values is bracketed by the sums of the bounds |
| MinMax.ThreeProductsMiss | src/RangedAddressSanitizer/RelativeMinMax.cpp:68-73 | the three-product rule as written misses an attainable product: [-3,-2] times [-3,-2] |
| MinMax.MulMinMaxSound | src/RangedAddressSanitizer/RelativeMinMax.cpp:50-74 | the corrected rule bounds every product of a value in [pl, ph] and one in [ol, oh] |
| MinMax.ScaleSound | src/RangedAddressSanitizer/RelativeMinMax.cpp:50-67 | scaling by a degenerate constant side swaps the bounds unless the constant is positive |
| MinMax.PowAsWrittenSound | src/RangedAddressSanitizer/RelativeMinMax.cpp:214-220 | the pow rule as written brackets the power when the base's lower bound is non-negative (positive under a negative exponent) |
| MinMax.EvenPowerMiss | src/RangedAddressSanitizer/RelativeMinMax.cpp:214-220 | as written, a base in [-3, 2] squared gets the bounds (9, 4), which exclude the square 0 of the base 0 |
| MinMax.EvenPowSound | src/RangedAddressSanitizer/RelativeMinMax.cpp:214-220 | for a positive even exponent the corrected bounds bracket the power of every base in range, negative ones included |
| MinMax.PowMinMaxSound | src/RangedAddressSanitizer/RelativeMinMax.cpp:203-220 | the corrected pow rule brackets the power of every base in range: a positive even exponent gets the lower bound 0 or the smaller magnitude raised, and the larger of the raised bounds as maximum; a negative exponent still needs a positive lower bound |
| MinMax.DecreasingBoundsSwapped | src/RangedAddressSanitizer/RelativeMinMax.cpp:95-144 | as written, a counting-down loop `i = 10; i > 0; i--` gets the bounds (10, 1), which exclude the value 5 |
| MinMax.InductionBoundsSound | src/RangedAddressSanitizer/RelativeMinMax.cpp:95-144 | the corrected induction bounds bracket every value between start and end in the loop's direction |
| MinMax.NodeBoundsDegenerate | src/RangedAddressSanitizer/RelativeMinMax.cpp:221-230 | as written, Min and Max nodes use the children's minima for both bounds and exclude attainable values |
| MinMax.MinNodeSound | src/RangedAddressSanitizer/RelativeMinMax.cpp:221-230 | the corrected Min node brackets the minimum of two bracketed values |
| MinMax.MaxNodeSound | src/RangedAddressSanitizer/RelativeMinMax.cpp:221-230 | the corrected Max node brackets the maximum of two bracketed values |
| MinMax.MinIgnoresFailure | src/RangedAddressSanitizer/RelativeMinMax.cpp:221-230 | as written, `min(n^m, 5)` succeeds with (0, 0) although the power fails, and n = 2, m = 3 gives 5 outside it; the corrected node fails |
| MinMax.ColocatedBoundsSound | src/RangedAddressSanitizer/RelativeMinMax.cpp:145-171 | the corrected co-located bounds, the symbolic min and max of the start and `coStart + coStep * trips`, bracket every value between the two, whatever the steps' signs |
| MinMax.ColocatedAsWrittenSound | src/RangedAddressSanitizer/RelativeMinMax.cpp:159-171 | the co-located rule as written, ordered by the induction step's sign, brackets the phi when its own step has the sign that order assumes |
| MinMax.ColocatedSignMiss | src/RangedAddressSanitizer/RelativeMinMax.cpp:159-171 | as written, an induction variable counting up from 0 to 10 and a phi from 100 with step -2 get the bounds (100, 80), which exclude its value 90 |
| MinMax.LockstepBounds | src/RangedAddressSanitizer/RelativeMinMax.cpp:145-173 | in lockstep, the value lies between the start and the end in the order the step gives |
| MinMax.AddRangesSound | src/RangedAddressSanitizer/RelativeMinMax.cpp:177-186 | the add loop brackets the running value plus the sum of the terms |
| MinMax.MulRangesSound | src/RangedAddressSanitizer/RelativeMinMax.cpp:187-202 | the mul loop brackets the running value times the product of the factors |
| MinMax.MulSeedSound | src/RangedAddressSanitizer/RelativeMinMax.cpp:187-202 | with no bounds yet, the first factor's bounds seed the loop, and it brackets the product |
| MinMax.MulStepSound | src/RangedAddressSanitizer/RelativeMinMax.cpp:187-202 | one step of the mul loop keeps the bracket of the running product |
| MinMax.MinMaxSound | src/RangedAddressSanitizer/RelativeMinMax.cpp:76-236 | with the corrected rules: when the analysis succeeds on a proper expression from outputs whose bounds bracket 0, its bounds are clean and bracket the expression's value under every environment that meets `Assumed` |
| MinMax.ChildrenSound | src/RangedAddressSanitizer/RelativeMinMax.cpp:177-202 | with the corrected rules, every operand's range brackets the operand's value |
| MinMax.SymbolSound | src/RangedAddressSanitizer/RelativeMinMax.cpp:95-173 | with the corrected rules, the symbol case brackets the symbol's value |
| MinMax.IndvarSound | src/RangedAddressSanitizer/RelativeMinMax.cpp:95-144 | with the corrected rules, an induction variable whose value lies between its start and end in the loop's direction lies within the range built from the ranges of its start and its end |
| MinMax.CoLocatedSound | src/RangedAddressSanitizer/RelativeMinMax.cpp:145-173 | with the corrected rules, a co-located phi lies within the range built from its start and its end after the trip count of steps |
| MinMax.PowSound | src/RangedAddressSanitizer/RelativeMinMax.cpp:203-220 | with the corrected rules, the pow case brackets the power |
| MinMax.MinSound | src/RangedAddressSanitizer/RelativeMinMax.cpp:221-225 | with the corrected rules, the Min case brackets the node's value |
| MinMax.MaxSound | src/RangedAddressSanitizer/RelativeMinMax.cpp:226-230 | with the corrected rules, the Max case brackets the node's value |
| MinMax.GetMinMax | src/RangedAddressSanitizer/RelativeMinMax.cpp:76-236 | for either rule, the step-by-step method computes `MinMaxOf` of that rule and keeps the symbol table's invariant; `AsWritten` is the source |
| MinMax.AddLoop | src/RangedAddressSanitizer/RelativeMinMax.cpp:177-186 | the add loop computes the add combinator over the terms' ranges, stopping at the first failure |
| MinMax.MulLoop | src/RangedAddressSanitizer/RelativeMinMax.cpp:187-202 | for either rule, the mul loop seeded with Invalid computes the mul combinator of that rule over the factors' ranges, stopping at the first failure |
| MinMax.PowCase | src/RangedAddressSanitizer/RelativeMinMax.cpp:203-220 | for either rule, a non-constant exponent fails, a failing base fails, and otherwise the base's bounds are raised by that rule's pow rule |
| MinMax.NodeCase | src/RangedAddressSanitizer/RelativeMinMax.cpp:221-230 | for either rule, the node's range: as written the second child starts from the first child's maximum (the shared `Bogus`) and failures are ignored; corrected, both start fresh and a failure fails |
| MinMax.SymbolMinMax | src/RangedAddressSanitizer/RelativeMinMax.cpp:95-173 | for either rule, the symbol method computes that rule's symbol case: its own bound unless it is a phi with a loop answer |
| MinMax.IndvarMinMax | src/RangedAddressSanitizer/RelativeMinMax.cpp:95-144 | for either rule, a failing start or end fails, and otherwise the induction bounds of that rule order the two ranges by the exit compare |
| MinMax.CoLocatedMinMax | src/RangedAddressSanitizer/RelativeMinMax.cpp:145-173 | for either rule, missing co-located or loop answers fail, and otherwise that rule's co-located bounds are returned |
| MinMax.RelativeToDropsBounds | src/RangedAddressSanitizer/RelativeMinMax.cpp:238-244 | as written, the RAS copy leaves the caller's outputs at their fresh value and drops the bounds it computed |
| MinMax.RelativeToSound | src/SelectivePageMigration/RelativeMinMax.cpp:180-184 | with the corrected rules, the bounds bracket the value of V itself |
| MinMax.GetMinMaxRelativeTo | src/SelectivePageMigration/RelativeMinMax.cpp:180-184 | for either rule, the method builds the expression for V and computes `RelativeTo` of that rule |
| ReduceIndexation.AddFieldSizesSound | src/SelectivePageMigration/ReduceIndexation.cpp:85-96 | the struct loop adds the bytes of the preceding fields |
| ReduceIndexation.WalkSound | src/SelectivePageMigration/ReduceIndexation.cpp:80-108 | from a clean offset, the operand loop fails with Invalid or ends clean, moved by the indices' bytes |
| ReduceIndexation.IndexExprsSound | src/SelectivePageMigration/ReduceIndexation.cpp:80-108 | in a consistent execution the index expressions mean the indices' values |
| ReduceIndexation.ReduceSound | src/SelectivePageMigration/ReduceIndexation.cpp:74-111 | a reduction gives Invalid, or the root of the GEP chain as the array with an offset equal to the address's distance from it, when alloc sizes fit 32 bits |
| ReduceIndexation.BaseFailureReportsGep | src/SelectivePageMigration/ReduceIndexation.cpp:74-111 | a GEP whose base does not reduce is reported as its own array, with the Invalid offset the base's walk left |
| ReduceIndexation.ReduceMemoryOp | src/SelectivePageMigration/ReduceIndexation.cpp:74-111 | the recursive method with its operand loop computes `Reduce` |
| ReduceIndexation.WalkIndices | src/SelectivePageMigration/ReduceIndexation.cpp:80-108 | the operand loop updating `Ty` and `Subscript` computes `Walk` |
| ReduceIndexation.ReduceLoad | src/SelectivePageMigration/ReduceIndexation.cpp:48-59 | a load passes on the reduction of its pointer operand, operand 0 |
| ReduceIndexation.ReduceStore | src/SelectivePageMigration/ReduceIndexation.cpp:35-46 | a store passes on the reduction of its pointer operand, operand 1 |
| ReduceIndexation.ReduceGetElementPtr | src/SelectivePageMigration/ReduceIndexation.cpp:61-72 | a GEP is reduced as itself |
| Cfg.SimpleSplits | src/RangedAddressSanitizer/RangedAddressSanitizer.cpp:244-246 | of the two header predecessors of a simple loop, exactly one lies in the loop |
| Reuse.GenSound | src/Reuse/Reuse.cpp:269-304 | the generated step expression is Invalid or clean, and a clean one evaluates to the value of `from`, the phi standing for its own value |
| Reuse.ComposeSound | src/Reuse/Reuse.cpp:310-325 | when neither the binding nor the trip count mentions the phi, the composition is the step function iterated trip-count times |
| Reuse.ComposeNeedsAddShape | src/Reuse/Reuse.cpp:310-325 | a step function not of the `Indvar + W` shape composes to Invalid |
| Reuse.ChooseReuseFn | src/Reuse/Reuse.cpp:166-177 | the first of the add, sub and mul templates the step function matches, with its binding; the add template is chosen exactly when it matches, so sub is never chosen |
| Reuse.OnlyAddReached | src/Reuse/Reuse.cpp:149-185 | whenever the composition is valid, the runtime function is `__pact_reuse_add` and its step is the binding |
| Reuse.StepTranslates | src/Reuse/Reuse.cpp:310-325 | a step function `p + w` with `w` free of `p` translates the phi's value by the value of `w` |
| Reuse.IterateShift | src/Reuse/Reuse.cpp:310-325 | iterating a translation by `c` n times moves by `n * c` |
| Reuse.Ancestors | src/Reuse/Reuse.cpp:229-236 | the chain starts at `l`, ends at the outermost loop, and each entry is the previous one's parent |
| Reuse.FactorsOfAncestors | src/Reuse/Reuse.cpp:229-236 | the multiplier multiplies the trip counts of the ancestor chain without its outermost loop, and fails exactly when one is missing |
| Reuse.Multiplier | src/Reuse/Reuse.cpp:229-236 | the loop that walks up the parent links computes the product of those factors |
| Reuse.IncomingOf | src/Reuse/Reuse.cpp:127-137 | the start is the incoming value at `!BackEdgeIdx` and the step value the one at `BackEdgeIdx` |
| Reuse.PhiPlan | src/Reuse/Reuse.cpp:127-185 | a plan is for the phi, its step function is valid and its composition over the trip count is valid |
| Reuse.PlanSound | src/Reuse/Reuse.cpp:127-185 | in a consistent execution the pass calls `__pact_reuse_add`, the step function maps the phi's value to its next value, and the end is the start moved trip-count steps |
| Reuse.GepCall | src/Reuse/Reuse.cpp:188-258 | only a two-operand GEP whose subscript function is valid and has the phi gets a call, with the subscript at the phi's start and end |
| Reuse.GepCallSound | src/Reuse/Reuse.cpp:197-208 | the call's subscripts are the subscript function evaluated at the phi's start value and at its end value |
| Reuse.GepsInComplete | src/Reuse/Reuse.cpp:115-121 | every GEP in one of the loop's blocks is collected |
| Reuse.CollectGeps | src/Reuse/Reuse.cpp:115-121 | the nested loops over the loop's blocks collect exactly the GEPs, in order |
| Reuse.CollectBlockGeps | src/Reuse/Reuse.cpp:117-121 | the inner loop collects a block's GEPs in order |
| Reuse.CallsForGeps | src/Reuse/Reuse.cpp:188-258 | the GEP loop for one phi computes the calls of its accepted GEPs |
| Reuse.CallsForPhi | src/Reuse/Reuse.cpp:124-259 | one phi gives no call when it is skipped, otherwise one per accepted GEP |
| Reuse.CallsForPhis | src/Reuse/Reuse.cpp:124-259 | the loop over a header's leading phis computes their calls |
| Reuse.CallsForHeader | src/Reuse/Reuse.cpp:80-259 | a header gives calls only with a trip count and a simple loop |
| Reuse.RunOnFunction | src/Reuse/Reuse.cpp:66-264 | the calls the pass places, block by block in layout order |
| CallSites.Merge | src/SelectivePageMigration/SelectivePageMigration.cpp:214-231 | a duplicate's min and max become the signed min and max of both, its reuse the sum; everything else stays |
| CallSites.InsertAllMerges | src/SelectivePageMigration/SelectivePageMigration.cpp:214-231 | from an empty set, the table holds a record for a key exactly when one was offered, and it is the merge of all records offered with that key |
| CallSites.MergeAllBounds | src/SelectivePageMigration/SelectivePageMigration.cpp:214-231 | the merged min and max bound every offered record's, are attained by one, and the merged reuse is the sum |
| CallSites.CallTable.constructor | src/SelectivePageMigration/SelectivePageMigration.h:45-47 | the set starts empty |
| CallSites.CallTable.Clear | src/SelectivePageMigration/SelectivePageMigration.cpp:90 | the set is emptied |
| CallSites.CallTable.Insert | src/RangedAddressSanitizer/RangedAddressSanitizer.cpp:471-488 | a new key is added; on a duplicate the stored record is replaced by the merge; every record stays under its own key |
| CallSites.RecoverPreheader | src/RangedAddressSanitizer/RangedAddressSanitizer.cpp:409-425 | the recovery loop picks the first header predecessor outside every loop |
| CallSites.SiteFor | src/RangedAddressSanitizer/RangedAddressSanitizer.cpp:403-445 | the final loop must exist, with a preheader and a unique exit block, and the array must dominate the preheader |
| CallSites.CallFor | src/SelectivePageMigration/SelectivePageMigration.cpp:145-231 | a record only for a load or store whose address reduces, whose site exists and whose bounds the analysis of the given rule finds; its array is the reduction's, its final loop the outermost one for FASan |
| CallSites.CallForSound | src/RangedAddressSanitizer/RangedAddressSanitizer.cpp:364-491 | with the corrected rules: the pointer reduces to the record's array, and under every consistent execution meeting `Assumed` the record's min and max bracket the access offset |
| CallSites.FindSite | src/RangedAddressSanitizer/RangedAddressSanitizer.cpp:403-445 | the method checks the site in the source's order and computes `SiteFor` |
| CallSites.FinalAndPreheader | src/RangedAddressSanitizer/RangedAddressSanitizer.cpp:403-425 | the final loop and its preheader, as each pass finds them |
| CallSites.RecordFor | src/RangedAddressSanitizer/RangedAddressSanitizer.cpp:364-462 | for either rule, the checks in the source's order build `CallFor`'s record of that rule, keeping the symbol table's invariant; `AsWritten` is the source |
| CallSites.GenerateCallFor | src/RangedAddressSanitizer/RangedAddressSanitizer.cpp:364-491 | for either rule, the record, if any, is offered to `Calls_` (inserted or merged), the result says whether there was one, and without one the set is unchanged |
| CallSites.VisitBlocksSpec | src/RangedAddressSanitizer/RangedAddressSanitizer.cpp:255-260 | visiting a loop's blocks appends its unprocessed blocks once each, paired with the loop, and afterwards every block of the loop is processed |
| CallSites.WalkSpec | src/RangedAddressSanitizer/RangedAddressSanitizer.cpp:233-262 | each new entry is an unprocessed block paired with the first walked loop containing it, and every block of a walked loop ends up processed |
| CallSites.WalkCovers | src/RangedAddressSanitizer/RangedAddressSanitizer.cpp:233-262 | every access the walk reaches with a record is covered by the table's merged record for its key |
| CallSites.VisitInst | src/RangedAddressSanitizer/RangedAddressSanitizer.cpp:258-259 | one instruction offers zero or one record |
| CallSites.VisitBlock | src/RangedAddressSanitizer/RangedAddressSanitizer.cpp:258-259 | a block's instructions offer their records in order |
| CallSites.VisitLoop | src/RangedAddressSanitizer/RangedAddressSanitizer.cpp:255-260 | a loop's blocks are processed in `block_begin` order unless already processed |
| CallSites.WalkLoops | src/RangedAddressSanitizer/RangedAddressSanitizer.cpp:233-262 | every simple loop reached in the dominator post-order has its unprocessed blocks processed |
| CallSites.EmitCalls | src/RangedAddressSanitizer/RangedAddressSanitizer.cpp:264-272 | the calls are exactly those of the records in `Calls_` |
| CallSites.RunOnFunction | src/SelectivePageMigration/SelectivePageMigration.cpp:48-141 | with the setting's rule: the main calls, the function filter, the clear, the walk and the emission; a skipped function keeps its table |
| CallSites.CheckCoversAccess | src/RangedAddressSanitizer/RangedAddressSanitizer.cpp:264-272 | with the corrected rules: when the walk reaches an access and builds a record, the function gets a range check or a page request before the preheader's terminator whose symbolic bounds bracket the access |
| FasanCheck.Check | src/RangedAddressSanitizer/Runtime/FASanRuntime.cpp:159-172 | the probe loop answers whether `verify` is false at every probed address, and true without probing for an empty range |
| FasanCheck.ProbesExact | src/RangedAddressSanitizer/Runtime/FASanRuntime.cpp:159-172 | an offset is probed exactly when it lies in [start, end) on the 4-byte grid from start |
| FasanCheck.ProbesLength | src/RangedAddressSanitizer/Runtime/FASanRuntime.cpp:159-172 | there are ceil((end - start) / 4) probes, none for an empty range |
| FasanCheck.ProbeAt | src/RangedAddressSanitizer/Runtime/FASanRuntime.cpp:159-172 | the k-th probe is start + 4k, and exists exactly when that offset is below end |
| FasanCheck.AllClearMeaning | src/RangedAddressSanitizer/Runtime/FASanRuntime.cpp:159-172 | the check is true exactly when `verify` is false at `ary + start + 4k` for every k whose offset is below end |
| PageIntervals.PageOf | src/SelectivePageMigration/Runtime/SelectivePageMigrationRuntime.cpp:200-201 | for a non-negative address the page holds it; C division rounds a negative one toward zero |
| PageIntervals.PageRange | src/SelectivePageMigration/Runtime/SelectivePageMigrationRuntime.cpp:200-201 | the range runs from the page of `Ary + Start` to that of `Ary + End`, in order when start <= end |
| PageIntervals.PageMonotone | src/SelectivePageMigration/Runtime/SelectivePageMigrationRuntime.cpp:200-201 | pages are monotone in the address |
| PageIntervals.LowerSplits | src/SelectivePageMigration/Runtime/SelectivePageMigrationRuntime.cpp:37-42 | in a chain, the entries before a region are exactly the first `Lower` ones |
| PageIntervals.MapInsertChain | src/SelectivePageMigration/Runtime/SelectivePageMigrationRuntime.cpp:59-78 | inserting a key with no equivalent keeps the chain and places the key at `Lower` |
| PageIntervals.MapInsertSubsumes | src/SelectivePageMigration/Runtime/SelectivePageMigrationRuntime.cpp:59-78 | every entry survives an insertion |
| PageIntervals.ErasePairChain | src/SelectivePageMigration/Runtime/SelectivePageMigrationRuntime.cpp:94-139 | erasing two neighbours keeps the chain |
| PageIntervals.MergedHasNoEquivalent | src/SelectivePageMigration/Runtime/SelectivePageMigrationRuntime.cpp:94-139 | the hull of two neighbours has no equivalent among the others, so re-inserting it succeeds |
| PageIntervals.MergeSubsumes | src/SelectivePageMigration/Runtime/SelectivePageMigrationRuntime.cpp:94-139 | the hull covers both neighbours, and every other entry survives |
| PageIntervals.PageTable.constructor | src/SelectivePageMigration/Runtime/SelectivePageMigrationRuntime.cpp:55-56 | the table starts empty |
| PageIntervals.PageTable.Insert | src/SelectivePageMigration/Runtime/SelectivePageMigrationRuntime.cpp:59-78 | a region equivalent to a key changes nothing and yields `end()`; otherwise it is added and joined, the chain kept, every old region still covered for its owner, and every entry other than the result an old entry |
| PageIntervals.PageTable.Join | src/SelectivePageMigration/Runtime/SelectivePageMigrationRuntime.cpp:80-92 | joining with the successor, then the predecessor, keeps the chain, covers every old region, and leaves besides the result only old entries other than `L` |
| PageIntervals.PageTable.JoinNext | src/SelectivePageMigration/Runtime/SelectivePageMigrationRuntime.cpp:81-85 | the join with the successor, or no change at the last entry, with the same guarantees |
| PageIntervals.PageTable.JoinPrevious | src/SelectivePageMigration/Runtime/SelectivePageMigrationRuntime.cpp:87-90 | the join with the predecessor, or no change at the first entry, with the same guarantees |
| PageIntervals.PageTable.JoinPair | src/SelectivePageMigration/Runtime/SelectivePageMigrationRuntime.cpp:94-139 | different owners leave the table unchanged and yield `L`; for one owner, a region strictly inside its neighbour is erased and the neighbour returned, otherwise both are replaced by their hull; the two neighbours are gone and every other entry, except the result, is an old one |
| TcProfiler.InstanceAccuracy | src/DepGraph/InstrumentationLibrariesToLink/TcProfilerLinkedLibrary.c:41-47 | an instance contributes 1 exactly when the actual and estimated trip counts differ by at most one, else 0 |
| TcProfiler.RunningMean | src/DepGraph/InstrumentationLibrariesToLink/TcProfilerLinkedLibrary.c:49 | the running-mean update keeps the accuracy equal to accurate instances over instances |
| TcProfiler.LoopStats.constructor | src/DepGraph/InstrumentationLibrariesToLink/TcProfilerLinkedLibrary.c:25-36 | the given id and class, no instances, accuracy 1.0, no successor |
| TcProfiler.LoopStats.AddInstance | src/DepGraph/InstrumentationLibrariesToLink/TcProfilerLinkedLibrary.c:38-51 | one more instance, one more accurate one exactly when accurate, and the accuracy the new mean |
| TcProfiler.LoopList.constructor | src/DepGraph/InstrumentationLibrariesToLink/TcProfilerLinkedLibrary.c:101-103 | the list starts empty |
| TcProfiler.LoopList.Find | src/DepGraph/InstrumentationLibrariesToLink/TcProfilerLinkedLibrary.c:74-96 | the position of the first node with the id (the length when none), that node and the one before it |
| TcProfiler.LoopList.GetOrInsert | src/DepGraph/InstrumentationLibrariesToLink/TcProfilerLinkedLibrary.c:74-96 | the first node with the id, list unchanged; otherwise a fresh node appended at the tail; ids stay distinct |
| TcProfiler.LoopList.Append | src/DepGraph/InstrumentationLibrariesToLink/TcProfilerLinkedLibrary.c:86-95 | a fresh node with the id, the class, no instances and accuracy 1.0 is linked after the tail |
| TcProfiler.LoopList.CollectLoopData | src/DepGraph/InstrumentationLibrariesToLink/TcProfilerLinkedLibrary.c:105-107 | one instance is added to the loop's node, found or appended; other nodes do not change |
| TcProfiler.LoopList.FreeList | src/DepGraph/InstrumentationLibrariesToLink/TcProfilerLinkedLibrary.c:61-72 | the list is emptied |
| LoopStructure.GetDelta | src/DepGraph/LoopStructure.cpp:36-49 | the loop over `t1` collects exactly `t1 - t2` |
| LoopStructure.BucketOf | src/DepGraph/LoopStructure.cpp:135-155 | counts 1 to 5 have their own counters, counts above 999 share one, and 0 and 6 to 999 are not counted |
| LoopStructure.TallyAdd | src/DepGraph/LoopStructure.cpp:135-155 | adding one SCC raises exactly its bucket's tally by one |
| LoopStructure.SccCensus.constructor | src/DepGraph/LoopStructure.cpp:123-128 | no SCC is analysed and every counter is 0 |
| LoopStructure.SccCensus.Count | src/DepGraph/LoopStructure.cpp:135-155 | one counter goes up by one, none for the uncounted bucket |
| LoopStructure.SccCensus.AnalyzeScc | src/DepGraph/LoopStructure.cpp:120-155 | a multi-node SCC not analysed before becomes analysed and its path count is counted once |
| LoopStructure.SccCensus.AnalyzeDelta | src/DepGraph/LoopStructure.cpp:116-164 | after the delta, the analysed set gains the delta's multi-node SCCs, each counted once in its bucket |
| TripCount.FirstLatchingExit | src/DepGraph/TripCountProfiler.cpp:462-495 | the first exiting block that branches to the header, or the count when there is none |
| TripCount.ControllerBlock | src/DepGraph/TripCountProfiler.cpp:462-495 | the header when it exits, else the first latching exit, else the first exiting block |
| TripCount.FindLoopControllerBlock | src/DepGraph/TripCountProfiler.cpp:462-495 | the two passes over the exiting blocks compute `ControllerBlock` |
| TripCount.Widen | src/DepGraph/TripCountProfiler.cpp:224-303 | sign extension for signed comparisons and zero extension otherwise keep the operand's reading |
| TripCount.Difference | src/DepGraph/TripCountProfiler.cpp:224-303 | the larger operand less the smaller, as a pattern of their common width |
| TripCount.UnsignedDifference | src/DepGraph/TripCountProfiler.cpp:224-303 | for unsigned comparisons the difference is the distance of the patterns |
| TripCount.SignedDifference | src/DepGraph/TripCountProfiler.cpp:224-303 | for signed comparisons it is the distance of the readings when that fits the signed range |
| TripCount.EstimateMeaning | src/DepGraph/TripCountProfiler.cpp:224-303 | the estimate is the operands' distance, plus one for inclusive predicates, as a 64-bit pattern |
| TripCount.EstimateIsNotUnknown | src/DepGraph/TripCountProfiler.cpp:552 | an estimate of operands narrower than 64 bits never equals the unknown marker |
| TripCount.DistanceBound | src/DepGraph/TripCountProfiler.cpp:224-303 | the distance of two operands is below 2^w for their common width w |
| TripCount.LoopClass | src/DepGraph/TripCountProfiler.cpp:590-617 | 0 for order comparisons, 1 for other compares, 2 without one |
| TripCount.ValueAtEntry | src/DepGraph/TripCountProfiler.cpp:341-449 | an invariant value is itself; a value with an entry value is in the dependence graph; a value of an unhandled kind has one only through a header phi's incoming value from the entry block |
| TripCount.LoadThroughCast | src/DepGraph/TripCountProfiler.cpp:385-440 | a load whose address is a cast of an invariant value is copied exactly when the cast keeps the type, since the operand resolves to the uncast value |
| TripCount.KnownEstimate | src/DepGraph/TripCountProfiler.cpp:618-653 | known only for an `icmp` whose operands both have an integer value at the entry point |
| TripCount.ProfiledEstimate | src/DepGraph/TripCountProfiler.cpp:624-653 | the known estimate, or the unknown marker |
| TripCount.UnknownNeverAccurate | src/DepGraph/TripCountProfiler.cpp:552 | the marker is read as -2, so a loop with an unknown estimate never counts as accurate |
| TripCount.RunCounter | src/DepGraph/TripCountProfiler.cpp:660-664 | the entry block stores 0 and each header execution adds one, in 64 bits |
| TripCount.RunsAfterEntry | src/DepGraph/TripCountProfiler.cpp:660-664 | after the entry block's last run, the counter holds the number of header executions since |
| TripCount.BlocksToInstrument | src/DepGraph/TripCountProfiler.cpp:669-685 | every exit block except landing pads, and nothing else |
| TripCount.ReportAtExit | src/DepGraph/TripCountProfiler.cpp:46-70 | reaching an instrumented exit records one instance for the header's id, with the counter and the estimate read as signed 64-bit integers, in the first node with that id or a node appended with class `cls`; the list is unchanged or grows by that node, and every other node keeps its contents; other blocks leave the list unchanged |

## Left out

- GiNaC itself. Its canonical form is replaced by the one in `SymExpr`. Like terms are not collected, products are not distributed, and `min`/`max` fold only two numbers.
- `isPositive`/`isNegative` on a non-constant assert in the source. The model answers false.
- Floating-point constants and `Expr(double)` are not modelled. Constants are exact rationals.
- Lowering.GetExprValue: the `pow` case goes through `double`, which is the `pow` parameter. GiNaC's numerator/denominator split is the `ratio` parameter. Emission is value semantics, not IR.
- Lowering.GetExprValue: an operand that lowers to null after the accumulator started makes IRBuilder assert. The model gives None there.
- Lowering.SDiv: division by zero is undefined in LLVM and gives None. `INT_MIN / -1` wraps.
- `RelativeExecutions` and the SPM `PythonInterface` are not part of this model. The executions expression of each loop is the `execs` parameter.
- The `TripCountAnalysis` answers are a parameter of Reuse (`trips`).
- ReduceIndexation.ReduceSound: the `unsigned` alloc sizes are truncated to 32 bits (`Unsigned`). The soundness lemma requires `SizesFit`. Struct padding and alignment are not modelled: fields are laid out back to back.
- ReduceIndexation.ReduceSound: 64-bit wrap-around of offsets is not modelled. The analysis works in ideal arithmetic, like the `Consistent` snapshot.
- MinMax.GetMinMax: the recursion through induction-variable starts and ends takes a `fuel` bound. Running out of fuel fails the analysis, which the source never does. The same holds for MinMax.SymbolMinMax and MinMax.IndvarMinMax.
- MinMax.MinMaxSound, MinMax.ChildrenSound, MinMax.SymbolSound: proved for the corrected rules only. With the rules as written it does not hold: each row of "## Findings" gives an input where the bounds exclude an attainable value.
- MinMax.MinSound: proved for the corrected Min node only. The node as written ignores failures and uses the children's minima for both bounds.
- MinMax.MaxSound: proved for the corrected Max node only, for the same reasons as the Min node.
- MinMax.IndvarSound: proved for the corrected induction bounds only. It also assumes that the value lies between start and end in the loop's direction, that is, the loop has run (the source's FIXME).
- MinMax.CoLocatedSound: proved for the corrected co-located bounds only. It assumes that the phi lies between its start and its end.
- MinMax.PowSound: proved for the corrected pow rule only. A negative exponent still needs a base whose lower bound is positive (`BaseAssumed`). The exponent is a rational, and a non-integral one evaluates to 0, so the theorem says nothing real about fractional powers.
- MinMax.MulLoop, MinMax.NodeCase, MinMax.SymbolMinMax, MinMax.IndvarMinMax: each computes the function of the given rule. With `AsWritten` that is the source's computation. The soundness lemmas beside them are for `Corrected`.
- CallSites.CheckCoversAccess: proved for a setting with the corrected rules (`s.rule.Corrected?`). Its bounds are the symbolic min and max of the record. The lowering of those bounds to 64-bit values by `getExprValue` is modelled in `Lowering` but not composed with this theorem.
- CallSites.RecordFor, CallSites.GenerateCallFor, CallSites.RunOnFunction: each works with the rule of its setting. With `AsWritten` that is the program.
- Truncating division and fixed-width overflow are outside the "consistent execution" theorems. `Consistent` reads every value as an ideal real, and `Div` is real division. The theorems affected are LoopInfo.ExprForLoopSound, Induction.InductionStep, Induction.ColocatedSound, MinMax.MinMaxSound, CallSites.CallForSound, CallSites.CheckCoversAccess, Reuse.GenSound and Reuse.PlanSound. `Lowering` models the integer code that is emitted.
- Where the source would crash or hit undefined behaviour, the model returns None (or fails) instead:
  - Lowering.GetExprValue: a Min, Max or Pow node with a child that lowers to null.
  - SymbolTables.SymbolTable.GetValue: a symbol name with no value. The source dereferences the null it finds.
  - Induction.Incomings: a phi with no incoming value for the preheader or the latch.
  - PageIntervals.PageTable.Join: the second join after a failed first one.
  - TripCount.FindLoopControllerBlock: a loop with no exiting blocks.
  - CallSites.SiteFor, CallSites.FinalAndPreheader: in RAS, a final loop with no preheader whose header has no predecessor outside every loop. The source asserts at RangedAddressSanitizer.cpp:427, and a release build goes on with a null preheader. The model makes no record.
- TcProfiler: the `long` and `int` counters of the profiler list are unbounded integers. Their overflow is not modelled.
- TripCount.ValueAtEntry: types are reduced to integer widths and opaque ids, enough for the operand-type check of the copied loads. A header phi's incoming value is returned without a type check, as in the source.
- The heuristic of `__spm_get`, which compares the range against the cache size and reuse, is not part of this model. Neither is its `migrate` call.
- CallSites.CallForSound: it assumes the properness and loop assumptions that `getMinMax` needs (`Assumed`). FASan's reuse value is fixed at 0, because `ENABLE_REUSE` is off.
- The RAS loop cloning and check-function inlining after the range check (RangedAddressSanitizer.cpp:273-357) are not part of this model.
- The RAS `ii_visitLoop` iteration printout and `FASAN_DISABLE` are not part of this model. Neither are `STATISTIC`, debug output, `cl::opt` beyond the function filter, or environment variables.
- SPM with a null preheader or exit block dereferences null in the source. The model makes no record.
- Reuse: a missing trip count for an ancestor loop gives no call (a null operand in the source). A header phi with fewer than two incoming values is skipped.
- The hwloc calls of the SPM runtime and the pact runtime bodies are not part of this model. Neither is thread ownership beyond the `owner` field, nor concurrency.
- PageIntervals: the comparator of `std::map` is not a strict weak order. The table's properties are proved for tables that form a chain under it.
- The profiler's floating-point accuracy is kept as an exact real. `printf` reporting is not modelled.
- LoopStructure: the dependence graph (SCC ids, sizes, acyclic paths) is a parameter, and its code is not part of this model.
- The RExpr symbol cache shares the `Intern.Atom` atoms and is not a separate class.

## Findings

| source | as written | input that shows it | evidently intended | confidence | as-written member | corrected member |
|---|---|---|---|---|---|---|
| src/RangedAddressSanitizer/RelativeMinMax.cpp:68-73 | each bound is the min or max of only three of the four corner products | [-3, -2] times [-3, -2]: the computed minimum is 6, but 4 is attainable | all four corner products | not executed | MinMax.ThreeProductsMiss | MinMax.MulMinMaxSound |
| src/RangedAddressSanitizer/RelativeMinMax.cpp:95-144 | counting down, the bounds are (max start, min end) | `i = 10; i > 0; i--` gives (10, 1), which excludes 5 | counting down, (min end, max start) | not executed | MinMax.DecreasingBoundsSwapped | MinMax.InductionBoundsSound |
| src/RangedAddressSanitizer/RelativeMinMax.cpp:221-230 | Min and Max nodes take both bounds from the children's minima, and succeed even when a child's `getMinMax` fails | children in [0, 10] and [5, 5]: the Min node gets [0, 0] but takes 5 at 10 and 5; `min(n^m, 5)` gets (0, 0) although the power fails | the smaller (larger) minimum and the smaller (larger) maximum, with a failing child failing the node | not executed | MinMax.NodeBoundsDegenerate, MinMax.MinIgnoresFailure | MinMax.MinNodeSound |
| src/RangedAddressSanitizer/RelativeMinMax.cpp:214-220 | a power's bounds are the raised bounds of the base, which assumes the power is monotone in the base | a base in [-3, 2] squared gets (9, 4), which excludes 0 | for an even exponent, 0 or the smaller magnitude raised as minimum and the larger raised bound as maximum | not executed | MinMax.EvenPowerMiss | MinMax.PowMinMaxSound |
| src/RangedAddressSanitizer/RelativeMinMax.cpp:159-171 | the co-located bounds are ordered by the sign of the induction variable's step, not by the phi's own step ("TODO account for sign") | `i` from 0 to 10 step 1 and a phi from 100 with step -2: the bounds (100, 80) exclude 90 | the symbolic min and max of start and end | not executed | MinMax.ColocatedSignMiss | MinMax.ColocatedBoundsSound |
| src/RangedAddressSanitizer/RelativeMinMax.cpp:238-244 | the result of `getMinMax` goes into locals, and the caller's outputs stay fresh | a loop-free argument `n`: the caller gets (0, 0) although `getMinMax` found (n, n) | write the caller's outputs, as the SPM copy does | not executed | MinMax.RelativeToDropsBounds | MinMax.RelativeToSound |
