/**
 * The call-site records of the RangedAddressSanitizer (`Fasan`) and
 * SelectivePageMigration (`Spm`) passes: `generateCallFor` turns a load
 * or store of a loop into a record (final loop, preheader, exit block,
 * array, materialised min, max and reuse) through a sequence of checks;
 * `Calls_` keeps one record per (preheader, array), merging a duplicate by
 * signed min, signed max and sum; `runOnFunction` walks the loops in
 * post-order of the dominator tree, visiting each block once; the records
 * then become runtime calls.  A setting's rule picks the interval rules:
 * `AsWritten` is the program, and the run-time guarantee is proved for
 * `Corrected`.
 */
module CallSites {
  import opened Wrappers
  import opened SymExpr
  import opened Intern
  import opened SymbolTables
  import opened Ir
  import opened LoopInfo
  import opened MinMax
  import opened ReduceIndexation
  import opened Cfg

  // ---------------------------------------------------------------------
  // Records and their merge
  // ---------------------------------------------------------------------

  /**
   * A value the pass materialises before the preheader's terminator: an
   * expression lowered by `getExprValue`, or the select/add instructions a
   * merge creates (`select(icmp slt a b, a, b)`, `select(icmp sgt a b, a, b)`,
   * `add a b`).
   */
  datatype Emitted = Emit(e: Expr) | SMin(l: Emitted, r: Emitted) | SMax(l: Emitted, r: Emitted) | Sum(l: Emitted, r: Emitted)

  /** The value of a materialised value, in ideal arithmetic. */
  function EvalEmitted(v: Emitted, env: Symbol -> real): real {
    match v
    case Emit(e) => Eval(e, env)
    case SMin(l, r) => var a, b := EvalEmitted(l, env), EvalEmitted(r, env); if a < b then a else b
    case SMax(l, r) => var a, b := EvalEmitted(l, env), EvalEmitted(r, env); if a > b then a else b
    case Sum(l, r) => EvalEmitted(l, env) + EvalEmitted(r, env)
  }

  /**
   * `CallInfo`: the final loop (kept by the Fasan pass only), the
   * preheader, the exit block, the array and the materialised min, max and
   * reuse.
   */
  datatype CallInfo = CallInfo(finalLoop: Option<nat>, preheader: nat, exit: nat, arr: nat,
                               min: Emitted, max: Emitted, reuse: Emitted)

  /** Records are equal, for the set, when preheader and array are. */
  function KeyOf(ci: CallInfo): (nat, nat) {
    (ci.preheader, ci.arr)
  }

  /**
   * The stored record `stored` after a duplicate `ci`: min and max are the
   * signed min and max of both, reuse their sum; everything else stays.
   */
  function Merge(stored: CallInfo, ci: CallInfo): (r: CallInfo)
    ensures KeyOf(r) == KeyOf(stored)
    ensures r.finalLoop == stored.finalLoop && r.exit == stored.exit
    ensures forall env :: EvalEmitted(r.min, env) <= EvalEmitted(stored.min, env) && EvalEmitted(r.min, env) <= EvalEmitted(ci.min, env)
    ensures forall env :: EvalEmitted(r.max, env) >= EvalEmitted(stored.max, env) && EvalEmitted(r.max, env) >= EvalEmitted(ci.max, env)
    ensures forall env :: EvalEmitted(r.reuse, env) == EvalEmitted(stored.reuse, env) + EvalEmitted(ci.reuse, env)
  {
    stored.(min := SMin(stored.min, ci.min), max := SMax(stored.max, ci.max), reuse := Sum(stored.reuse, ci.reuse))
  }

  /** `Calls_` after offering `ci`: a new key is added, a known one merged. */
  function Inserted(m: map<(nat, nat), CallInfo>, ci: CallInfo): map<(nat, nat), CallInfo> {
    var k := KeyOf(ci);
    if k in m then m[k := Merge(m[k], ci)] else m[k := ci]
  }

  /** Every record is stored under its own key. */
  predicate Keyed(m: map<(nat, nat), CallInfo>) {
    forall k :: k in m ==> KeyOf(m[k]) == k
  }

  /** Offering a record keeps every record under its own key. */
  lemma InsertedKeyed(m: map<(nat, nat), CallInfo>, ci: CallInfo)
    requires Keyed(m)
    ensures Keyed(Inserted(m, ci))
  {
  }

  /** `Calls_` after offering the records `cs` in order. */
  function InsertAll(m: map<(nat, nat), CallInfo>, cs: seq<CallInfo>): map<(nat, nat), CallInfo> {
    if cs == [] then m else Inserted(InsertAll(m, cs[..|cs| - 1]), cs[|cs| - 1])
  }

  /** The records of `cs` with key `k`, in order. */
  function Offered(cs: seq<CallInfo>, k: (nat, nat)): (r: seq<CallInfo>)
    ensures forall i :: 0 <= i < |r| ==> KeyOf(r[i]) == k
  {
    if cs == [] then []
    else Offered(cs[..|cs| - 1], k) + (if KeyOf(cs[|cs| - 1]) == k then [cs[|cs| - 1]] else [])
  }

  /** The first record merged with each later one in turn. */
  function MergeAll(rs: seq<CallInfo>): (r: CallInfo)
    requires rs != []
    ensures KeyOf(r) == KeyOf(rs[0]) && r.finalLoop == rs[0].finalLoop && r.exit == rs[0].exit
  {
    if |rs| == 1 then rs[0] else Merge(MergeAll(rs[..|rs| - 1]), rs[|rs| - 1])
  }

  /**
   * Starting from an empty set, the table holds a record for key `k`
   * exactly when one was offered, and that record is the merge of all
   * records offered with key `k`, in order.
   */
  lemma {:induction false} InsertAllMerges(cs: seq<CallInfo>, k: (nat, nat))
    ensures Keyed(InsertAll(map[], cs))
    ensures k in InsertAll(map[], cs) <==> Offered(cs, k) != []
    ensures k in InsertAll(map[], cs) ==> InsertAll(map[], cs)[k] == MergeAll(Offered(cs, k))
  {
    if cs != [] {
      var init := cs[..|cs| - 1];
      var c := cs[|cs| - 1];
      InsertAllMerges(init, k);
      InsertAllMerges(init, KeyOf(c));
      var m := InsertAll(map[], init);
      InsertedKeyed(m, c);
      var o := Offered(init, k);
      assert InsertAll(map[], cs) == Inserted(m, c);
      if KeyOf(c) != k {
        assert Offered(cs, k) == o;
      } else if o == [] {
        assert Offered(cs, k) == [c];
      } else {
        assert Offered(cs, k) == o + [c];
        assert (o + [c])[..|o + [c]| - 1] == o;
        assert MergeAll(o + [c]) == Merge(MergeAll(o), c);
      }
    }
  }

  /**
   * The merged min is at most, and the merged max at least, every offered
   * record's; the merged min and max are attained by some offered record;
   * the merged reuse is the sum of the offered reuses.
   */
  lemma {:induction false} MergeAllBounds(rs: seq<CallInfo>, env: Symbol -> real)
    requires rs != []
    ensures forall i :: 0 <= i < |rs| ==>
      EvalEmitted(MergeAll(rs).min, env) <= EvalEmitted(rs[i].min, env) &&
      EvalEmitted(MergeAll(rs).max, env) >= EvalEmitted(rs[i].max, env)
    ensures exists i :: 0 <= i < |rs| && EvalEmitted(MergeAll(rs).min, env) == EvalEmitted(rs[i].min, env)
    ensures exists i :: 0 <= i < |rs| && EvalEmitted(MergeAll(rs).max, env) == EvalEmitted(rs[i].max, env)
    ensures EvalEmitted(MergeAll(rs).reuse, env) == ReuseSum(rs, env)
  {
    if |rs| > 1 {
      var init := rs[..|rs| - 1];
      MergeAllBounds(init, env);
      var m := MergeAll(init);
      var last := rs[|rs| - 1];
      assert forall i :: 0 <= i < |init| ==> init[i] == rs[i];
      var a := EvalEmitted(m.min, env);
      if a >= EvalEmitted(last.min, env) {
        assert EvalEmitted(MergeAll(rs).min, env) == EvalEmitted(rs[|rs| - 1].min, env);
      } else {
        var i :| 0 <= i < |init| && a == EvalEmitted(init[i].min, env);
        assert EvalEmitted(MergeAll(rs).min, env) == EvalEmitted(rs[i].min, env);
      }
      var b := EvalEmitted(m.max, env);
      if b <= EvalEmitted(last.max, env) {
        assert EvalEmitted(MergeAll(rs).max, env) == EvalEmitted(rs[|rs| - 1].max, env);
      } else {
        var i :| 0 <= i < |init| && b == EvalEmitted(init[i].max, env);
        assert EvalEmitted(MergeAll(rs).max, env) == EvalEmitted(rs[i].max, env);
      }
    } else {
      assert EvalEmitted(MergeAll(rs).min, env) == EvalEmitted(rs[0].min, env);
      assert EvalEmitted(MergeAll(rs).max, env) == EvalEmitted(rs[0].max, env);
    }
  }

  /** The sum of the reuse values of `rs`. */
  function ReuseSum(rs: seq<CallInfo>, env: Symbol -> real): real {
    if rs == [] then 0.0 else ReuseSum(rs[..|rs| - 1], env) + EvalEmitted(rs[|rs| - 1].reuse, env)
  }

  /** `Calls_`, the unordered set of records, as a map from key to record. */
  class CallTable {
    var calls: map<(nat, nat), CallInfo>

    /** Each record sits under its own (preheader, array). */
    predicate Valid()
      reads this
    {
      Keyed(calls)
    }

    constructor ()
      ensures Valid() && calls == map[]
    {
      calls := map[];
    }

    /** `Calls_.clear()`. */
    method Clear()
      modifies this
      ensures Valid() && calls == map[]
    {
      calls := map[];
    }

    /**
     * `Calls_.insert(CI)`, and on a duplicate the merge: a copy of the
     * stored record gets the new min, max and reuse, the stored one is
     * erased and the copy inserted.  Returns whether `ci` was new.
     */
    method Insert(ci: CallInfo) returns (isNew: bool)
      requires Valid()
      modifies this
      ensures Valid()
      ensures isNew <==> KeyOf(ci) !in old(calls)
      ensures calls == Inserted(old(calls), ci)
    {
      var k := KeyOf(ci);
      if k !in calls {
        calls := calls[k := ci];
        return true;
      }
      var sci := calls[k];
      sci := sci.(min := SMin(sci.min, ci.min));
      sci := sci.(max := SMax(sci.max, ci.max));
      sci := sci.(reuse := Sum(sci.reuse, ci.reuse));
      assert sci == Merge(old(calls)[k], ci);
      calls := calls - {KeyOf(sci)};
      calls := calls[KeyOf(sci) := sci];
      return false;
    }
  }

  // ---------------------------------------------------------------------
  // generateCallFor
  // ---------------------------------------------------------------------

  /** The loaded value or the stored value, whose type gives the access size. */
  function AccessedValue(f: Function, p: nat): nat
    requires WellFormed(f) && p in f.insts && (f.insts[p].op.OpLoad? || f.insts[p].op.OpStore?)
  {
    assert Arity(f.insts[p]);
    if f.insts[p].op.OpLoad? then p else f.insts[p].operands[0]
  }

  /**
   * A type layout for the accesses: the address chain of each load and
   * store is well typed and its accessed value has a type (the LLVM
   * verifier guarantees both).
   */
  predicate AccessesTyped(f: Function, lay: Layout)
    requires WellFormed(f)
  {
    forall p :: p in f.insts && (f.insts[p].op.OpLoad? || f.insts[p].op.OpStore?) ==>
      Typed(f, lay, PointerOperand(f, p)) && AccessedValue(f, p) in lay.typeOf
  }

  /** The allocation size, in bytes, of the type the load or store accesses. */
  function AccessSize(f: Function, lay: Layout, p: nat): nat
    requires WellFormed(f) && p in f.insts && (f.insts[p].op.OpLoad? || f.insts[p].op.OpStore?)
    requires AccessedValue(f, p) in lay.typeOf
  {
    Unsigned(lay.allocSize(lay.typeOf[AccessedValue(f, p)]))
  }

  /** `getExecutionsRelativeTo(L, nullptr, Final)`: the executions expression and the loop it is relative to. */
  datatype Executions = Executions(reuse: Expr, final: nat)

  predicate ExecutionsIn(f: Function, execs: map<nat, Executions>) {
    forall l :: l in execs ==> execs[l].final in f.loops
  }

  /**
   * The loop a record belongs to: for Fasan the outermost loop around L;
   * for Spm the loop the executions expression is relative to, None when
   * that expression is Invalid.
   */
  function FinalLoop(pass: Pass, f: Function, execs: map<nat, Executions>, l: nat): (r: Option<nat>)
    requires WellFormed(f) && l in f.loops && ExecutionsIn(f, execs)
    ensures r.Some? ==> r.value in f.loops
  {
    if pass.Fasan? then Some(Outermost(f, l))
    else if l in execs && IsValid(execs[l].reuse) then Some(execs[l].final)
    else None
  }

  /** The first of `ps` outside every loop. */
  function FirstOutside(f: Function, ps: seq<nat>): (r: Option<nat>)
    ensures r.Some? ==> r.value in ps && r.value !in f.loopOf
    ensures r.None? ==> forall q :: q in ps ==> q in f.loopOf
    ensures r.Some? ==> exists k :: 0 <= k < |ps| && ps[k] == r.value && forall j :: 0 <= j < k ==> ps[j] in f.loopOf
  {
    if ps == [] then None
    else if ps[0] !in f.loopOf then Some(ps[0])
    else
      var r := FirstOutside(f, ps[1..]);
      if r.Some? then
        var k :| 0 <= k < |ps[1..]| && ps[1..][k] == r.value && forall j :: 0 <= j < k ==> ps[1..][j] in f.loopOf;
        assert ps[k + 1] == r.value && forall j :: 0 <= j < k + 1 ==> ps[j] in f.loopOf by {
          forall j | 0 <= j < k + 1 ensures ps[j] in f.loopOf {
            if j > 0 { assert ps[j] == ps[1..][j - 1]; }
          }
        }
        r
      else r
  }

  /**
   * The preheader of the final loop: LLVM's, or for Fasan, when there is
   * none, the first header predecessor lying outside every loop.
   */
  function PreheaderOf(pass: Pass, f: Function, g: Graph, l: nat): Option<nat>
    requires l in f.loops
  {
    match f.loops[l].preheader
    case Some(b) => Some(b)
    case None => if pass.Fasan? then FirstOutside(f, Preds(g, f.loops[l].header)) else None
  }

  /** The recovery loop over the header's predecessors, with its `break`. */
  method RecoverPreheader(f: Function, g: Graph, l: nat) returns (pre: Option<nat>)
    requires l in f.loops
    ensures pre == PreheaderOf(Fasan, f, g, l)
  {
    pre := f.loops[l].preheader;
    if pre.Some? {
      return;
    }
    var ps := Preds(g, f.loops[l].header);
    var k := 0;
    while k < |ps|
      invariant k <= |ps| && FirstOutside(f, ps) == FirstOutside(f, ps[k..])
    {
      if ps[k] !in f.loopOf {
        return Some(ps[k]);
      }
      assert ps[k..][1..] == ps[k + 1..];
      k := k + 1;
    }
    return None;
  }

  /** The array dominates the preheader: it is no instruction, or its block dominates or is the preheader. */
  predicate ArrayDominates(f: Function, g: Graph, arr: nat, pre: nat) {
    arr in f.insts ==> Dominates(g, f.insts[arr].block, pre)
  }

  /** The reuse value: the constant 0 with reuse disabled (Fasan), `ReuseEx * Size` for Spm. */
  function ReuseValue(pass: Pass, execs: map<nat, Executions>, l: nat, size: nat): Emitted {
    if pass.Fasan? || l !in execs then Emit(Num(0.0)) else Emit(Times(execs[l].reuse, Num(size as real)))
  }

  /** Where a record for an access of loop `l` to array `arr` goes. */
  datatype Site = Site(final: nat, preheader: nat, exit: nat)

  /**
   * The final loop, which must exist (Spm: a valid executions
   * expression), its preheader and its unique exit block, provided the
   * array dominates that preheader.
   */
  function SiteFor(pass: Pass, f: Function, g: Graph, execs: map<nat, Executions>, l: nat, arr: nat): (r: Option<Site>)
    requires WellFormed(f) && ExecutionsIn(f, execs) && l in f.loops
    ensures r.Some? ==>
      FinalLoop(pass, f, execs, l) == Some(r.value.final) &&
      PreheaderOf(pass, f, g, r.value.final) == Some(r.value.preheader) &&
      ExitBlock(g, r.value.final) == Some(r.value.exit) && ArrayDominates(f, g, arr, r.value.preheader)
  {
    match FinalLoop(pass, f, execs, l)
    case None => None
    case Some(final) =>
      match PreheaderOf(pass, f, g, final)
      case None => None
      case Some(pre) =>
        match ExitBlock(g, final)
        case None => None
        case Some(exit) => if ArrayDominates(f, g, arr, pre) then Some(Site(final, pre, exit)) else None
  }

  /**
   * The record `generateCallFor(L, I)` makes, or None: only a load or a
   * store qualifies; its address must reduce; the final loop must exist
   * (Spm: a valid executions expression), with a preheader and a unique
   * exit block; the array must dominate the preheader; the subscript's
   * min/max must succeed.
   */
  function CallFor(rule: Rule, pass: Pass, f: Function, g: Graph, lay: Layout, fuel: nat, execs: map<nat, Executions>, l: nat, p: nat): (r: Option<CallInfo>)
    requires WellFormed(f) && AccessesTyped(f, lay) && ExecutionsIn(f, execs) && l in f.loops
    ensures r.Some? ==> p in f.insts && (f.insts[p].op.OpLoad? || f.insts[p].op.OpStore?)
    ensures r.Some? ==> r.value.arr == Reduce(f, lay, PointerOperand(f, p), Fresh).arr
    ensures r.Some? ==> r.value.finalLoop == (if pass.Fasan? then Some(Outermost(f, l)) else None)
    ensures pass.Fasan? && r.Some? ==> r.value.reuse == Emit(Num(0.0))
  {
    if p !in f.insts || !(f.insts[p].op.OpLoad? || f.insts[p].op.OpStore?) then None
    else
      var red := Reduce(f, lay, PointerOperand(f, p), Fresh);
      if !red.ok then None
      else match SiteFor(pass, f, g, execs, l, red.arr)
        case None => None
        case Some(site) =>
          var range := MinMaxOf(rule, pass, f, fuel, red.offset, Fresh, Fresh);
          if !range.ok then None
          else Some(CallInfo(if pass.Fasan? then Some(site.final) else None, site.preheader, site.exit, red.arr,
                             Emit(range.lo), Emit(range.hi), ReuseValue(pass, execs, l, AccessSize(f, lay, p))))
  }

  /**
   * What a record promises at run time: the reusable pointer reduces to
   * the record's array, and in every consistent execution in which the
   * interval analysis' assumptions hold the byte offset of the access from
   * that array lies between the record's min and max.
   */
  lemma {:induction false} CallForSound(pass: Pass, f: Function, g: Graph, lay: Layout, fuel: nat, execs: map<nat, Executions>,
                                        l: nat, p: nat, env: nat -> real)
    requires WellFormed(f) && AccessesTyped(f, lay) && ExecutionsIn(f, execs) && l in f.loops
    requires CallFor(Corrected, pass, f, g, lay, fuel, execs, l, p).Some?
    requires Consistent(f, env) && SizesFit(lay)
    requires var red := Reduce(f, lay, PointerOperand(f, p), Fresh);
      Proper(red.offset) && Assumed(pass, f, fuel, red.offset, SymEnv(env))
    ensures var ci := CallFor(Corrected, pass, f, g, lay, fuel, execs, l, p).value; var q := PointerOperand(f, p);
      ci.arr == Root(f, q) &&
      EvalEmitted(ci.min, SymEnv(env)) <= Distance(f, lay, q, env) <= EvalEmitted(ci.max, SymEnv(env))
  {
    var q := PointerOperand(f, p);
    var red := Reduce(f, lay, q, Fresh);
    ReduceSound(f, lay, q, Fresh, env);
    ProperIsClean(red.offset);
    CleanIsValid(red.offset);
    MinMaxSound(pass, f, fuel, red.offset, Fresh, Fresh, SymEnv(env));
  }

  /** The address reduction of `reduceLoad` or `reduceStore`. */
  method ReduceAccess(f: Function, lay: Layout, p: nat, t: SymbolTable) returns (red: Reduction)
    requires WellFormed(f) && AccessesTyped(f, lay) && p in f.insts && (f.insts[p].op.OpLoad? || f.insts[p].op.OpStore?)
    requires t.Valid() && TableOf(t, f)
    modifies t
    ensures t.Valid() && TableOf(t, f) && red == Reduce(f, lay, PointerOperand(f, p), Fresh)
  {
    if f.insts[p].op.OpLoad? {
      red := ReduceLoad(f, lay, p, Fresh, t);
    } else {
      red := ReduceStore(f, lay, p, Fresh, t);
    }
  }

  /** The final loop and its preheader, as each pass finds them. */
  method FinalAndPreheader(pass: Pass, f: Function, g: Graph, execs: map<nat, Executions>, l: nat)
    returns (final: Option<nat>, pre: Option<nat>)
    requires WellFormed(f) && ExecutionsIn(f, execs) && l in f.loops
    ensures final == FinalLoop(pass, f, execs, l)
    ensures final.Some? ==> pre == PreheaderOf(pass, f, g, final.value)
  {
    pre := None;
    if pass.Fasan? {
      var top := FindToplevel(f, l);
      final := Some(top);
      pre := RecoverPreheader(f, g, top);
    } else {
      if l !in execs || !IsValid(execs[l].reuse) {
        return None, None;
      }
      final := Some(execs[l].final);
      pre := f.loops[execs[l].final].preheader;
    }
  }

  /** The checks on the final loop, its preheader, its exit and the array, in the source's order. */
  method FindSite(pass: Pass, f: Function, g: Graph, execs: map<nat, Executions>, l: nat, arr: nat) returns (site: Option<Site>)
    requires WellFormed(f) && ExecutionsIn(f, execs) && l in f.loops
    ensures site == SiteFor(pass, f, g, execs, l, arr)
  {
    var final, pre := FinalAndPreheader(pass, f, g, execs, l);
    if final.None? || pre.None? {
      return None;
    }
    var exit := ExitBlock(g, final.value);
    if exit.None? {
      return None;
    }
    if !ArrayDominates(f, g, arr, pre.value) {
      return None;
    }
    return Some(Site(final.value, pre.value, exit.value));
  }

  /** The record `generateCallFor` builds for `p`, if any, with the table of symbols updated. */
  method RecordFor(rule: Rule, pass: Pass, f: Function, g: Graph, lay: Layout, fuel: nat, execs: map<nat, Executions>, l: nat, p: nat,
                   t: SymbolTable) returns (r: Option<CallInfo>)
    requires WellFormed(f) && AccessesTyped(f, lay) && ExecutionsIn(f, execs) && l in f.loops
    requires t.Valid() && TableOf(t, f)
    modifies t
    ensures t.Valid() && TableOf(t, f)
    ensures r == CallFor(rule, pass, f, g, lay, fuel, execs, l, p)
  {
    if p !in f.insts || !(f.insts[p].op.OpLoad? || f.insts[p].op.OpStore?) {
      return None;
    }
    var red := ReduceAccess(f, lay, p, t);
    if !red.ok {
      return None;
    }
    var size := AccessSize(f, lay, p);
    var site := FindSite(pass, f, g, execs, l, red.arr);
    if site.None? {
      return None;
    }
    var range := GetMinMax(rule, pass, f, fuel, red.offset, Fresh, Fresh, t);
    if !range.ok {
      return None;
    }
    return Some(CallInfo(if pass.Fasan? then Some(site.value.final) else None, site.value.preheader, site.value.exit, red.arr,
                         Emit(range.lo), Emit(range.hi), ReuseValue(pass, execs, l, size)));
  }

  /**
   * `generateCallFor(L, I)`: the record for `p`, if any, is offered to
   * `Calls_`; the result says whether there was one.
   */
  method GenerateCallFor(rule: Rule, pass: Pass, f: Function, g: Graph, lay: Layout, fuel: nat, execs: map<nat, Executions>, l: nat, p: nat,
                         table: CallTable, t: SymbolTable) returns (made: bool)
    requires WellFormed(f) && AccessesTyped(f, lay) && ExecutionsIn(f, execs) && l in f.loops
    requires t.Valid() && TableOf(t, f) && table.Valid()
    modifies table, t
    ensures t.Valid() && TableOf(t, f) && table.Valid()
    ensures made <==> CallFor(rule, pass, f, g, lay, fuel, execs, l, p).Some?
    ensures table.calls == if made then Inserted(old(table.calls), CallFor(rule, pass, f, g, lay, fuel, execs, l, p).value) else old(table.calls)
  {
    var r := RecordFor(rule, pass, f, g, lay, fuel, execs, l, p, t);
    made := r.Some?;
    if made {
      var _ := table.Insert(r.value);
    }
  }

  // ---------------------------------------------------------------------
  // The walk over the loops
  // ---------------------------------------------------------------------

  /** What one run of the pass works on. */
  datatype Setting = Setting(rule: Rule, pass: Pass, f: Function, g: Graph, lay: Layout, fuel: nat, execs: map<nat, Executions>)

  predicate Ready(s: Setting) {
    WellFormed(s.f) && AccessesTyped(s.f, s.lay) && ExecutionsIn(s.f, s.execs)
  }

  /** The blocks processed so far, each with the loop it was processed for. */
  function BlocksOf(order: seq<(nat, nat)>): set<nat> {
    set i | 0 <= i < |order| :: order[i].1
  }

  /** No block is processed twice. */
  predicate NoRepeat(order: seq<(nat, nat)>) {
    forall i, j :: 0 <= i < j < |order| ==> order[i].1 != order[j].1
  }

  /** The blocks `bs` of loop `l`, each appended unless `Processed` has it. */
  function VisitBlocks(l: nat, bs: seq<nat>, order: seq<(nat, nat)>): seq<(nat, nat)> {
    if bs == [] then order
    else VisitBlocks(l, bs[1..], if bs[0] in BlocksOf(order) then order else order + [(l, bs[0])])
  }

  /**
   * The loop `getLoopFor(Header)` processed at a block of the post-order,
   * if the block is a loop header and the loop is simple.
   */
  function WalkedLoop(f: Function, g: Graph, h: nat): (r: Option<nat>)
    ensures r.Some? ==> r.value in f.loops
  {
    if IsHeader(f, h) && Simple(f, g, f.loopOf[h]) then Some(f.loopOf[h]) else None
  }

  /** The walk over the headers `hs` of the dominator tree's post-order. */
  function Walk(f: Function, g: Graph, hs: seq<nat>, order: seq<(nat, nat)>): seq<(nat, nat)> {
    if hs == [] then order
    else Walk(f, g, hs[1..], match WalkedLoop(f, g, hs[0])
                             case Some(l) => VisitBlocks(l, LoopBlocks(g, l), order)
                             case None => order)
  }

  /** The first loop walked at one of `hs` that contains block `b`. */
  function FirstClaim(f: Function, g: Graph, hs: seq<nat>, b: nat): (r: Option<nat>)
    ensures r.Some? ==> r.value in f.loops
  {
    if hs == [] then None
    else match WalkedLoop(f, g, hs[0])
      case Some(l) => if b in LoopBlocks(g, l) then Some(l) else FirstClaim(f, g, hs[1..], b)
      case None => FirstClaim(f, g, hs[1..], b)
  }

  lemma PrefixBlocks(order: seq<(nat, nat)>, r: seq<(nat, nat)>)
    requires |order| <= |r| && r[..|order|] == order
    ensures BlocksOf(order) <= BlocksOf(r)
  {
    forall b | b in BlocksOf(order) ensures b in BlocksOf(r) {
      var i :| 0 <= i < |order| && order[i].1 == b;
      assert r[i] == order[i];
    }
  }

  /**
   * Visiting a loop's blocks extends the order; each new entry is a block
   * of the loop not processed before, paired with the loop; afterwards
   * every block of the loop has been processed; and no block repeats.
   */
  lemma {:induction false} VisitBlocksSpec(l: nat, bs: seq<nat>, order: seq<(nat, nat)>)
    ensures var r := VisitBlocks(l, bs, order);
      |order| <= |r| && r[..|order|] == order &&
      (forall i :: |order| <= i < |r| ==> r[i].0 == l && r[i].1 in bs && r[i].1 !in BlocksOf(order)) &&
      (forall b :: b in bs ==> b in BlocksOf(r)) &&
      (NoRepeat(order) ==> NoRepeat(r))
  {
    if bs != [] {
      var next := if bs[0] in BlocksOf(order) then order else order + [(l, bs[0])];
      VisitBlocksSpec(l, bs[1..], next);
      var r := VisitBlocks(l, bs, order);
      assert r == VisitBlocks(l, bs[1..], next);
      assert next[..|order|] == order;
      assert r[..|order|] == order by {
        assert r[..|next|] == next;
        assert r[..|order|] == r[..|next|][..|order|];
      }
      PrefixBlocks(next, r);
      assert bs[0] in BlocksOf(next) by {
        if bs[0] !in BlocksOf(order) { assert next[|order|].1 == bs[0]; }
      }
      forall i | |order| <= i < |r| ensures r[i].0 == l && r[i].1 in bs && r[i].1 !in BlocksOf(order) {
        if i < |next| {
          assert r[i] == next[i] == (l, bs[0]);
        } else {
          PrefixBlocks(order, next);
          assert r[i].1 in bs[1..];
        }
      }
      forall b | b in bs ensures b in BlocksOf(r) {
        if b != bs[0] { assert b in bs[1..]; }
      }
      if NoRepeat(order) {
        assert NoRepeat(next) by {
          if bs[0] !in BlocksOf(order) {
            forall i, j | 0 <= i < j < |next| ensures next[i].1 != next[j].1 {
              if j == |order| { assert next[i] == order[i]; }
            }
          }
        }
      }
    }
  }

  /**
   * The walk from `order` extends it; each new entry is a block not
   * processed before, paired with the first walked loop that contains it;
   * every block some walked loop contains is processed; no block repeats.
   */
  lemma {:induction false} WalkSpec(f: Function, g: Graph, hs: seq<nat>, order: seq<(nat, nat)>)
    ensures var r := Walk(f, g, hs, order);
      |order| <= |r| && r[..|order|] == order &&
      (forall i :: |order| <= i < |r| ==> r[i].1 !in BlocksOf(order) && FirstClaim(f, g, hs, r[i].1) == Some(r[i].0)) &&
      (forall b :: FirstClaim(f, g, hs, b).Some? ==> b in BlocksOf(r)) &&
      (NoRepeat(order) ==> NoRepeat(r))
  {
    if hs != [] {
      var next := match WalkedLoop(f, g, hs[0])
                  case Some(l) => VisitBlocks(l, LoopBlocks(g, l), order)
                  case None => order;
      WalkSpec(f, g, hs[1..], next);
      var r := Walk(f, g, hs, order);
      assert r == Walk(f, g, hs[1..], next);
      match WalkedLoop(f, g, hs[0])
      case None =>
      case Some(l) =>
        var bs := LoopBlocks(g, l);
        VisitBlocksSpec(l, bs, order);
        assert r[..|order|] == order by {
          assert r[..|next|] == next;
          assert r[..|order|] == r[..|next|][..|order|];
        }
        PrefixBlocks(order, next);
        PrefixBlocks(next, r);
        forall i | |order| <= i < |r| ensures r[i].1 !in BlocksOf(order) && FirstClaim(f, g, hs, r[i].1) == Some(r[i].0) {
          if i < |next| {
            assert r[i] == next[i];
          } else {
            assert r[i].1 !in bs;
          }
        }
    }
  }

  /** The record `generateCallFor(L, I)` offers for loop `l` and instruction `p`, if any. */
  function RecordsOf(s: Setting): (nat, nat) -> Option<CallInfo> {
    (l: nat, p: nat) => if Ready(s) && l in s.f.loops then CallFor(s.rule, s.pass, s.f, s.g, s.lay, s.fuel, s.execs, l, p) else None
  }

  /** The records offered for the instructions `xs` of a block of loop `l`, in order. */
  function BlockOffers(rec: (nat, nat) -> Option<CallInfo>, l: nat, xs: seq<nat>): (r: seq<CallInfo>)
    ensures |r| <= |xs|
  {
    if xs == [] then []
    else BlockOffers(rec, l, xs[..|xs| - 1]) + OfferOf(rec, l, xs[|xs| - 1])
  }

  /** The record offered for instruction `p` of loop `l`, as a list of zero or one. */
  function OfferOf(rec: (nat, nat) -> Option<CallInfo>, l: nat, p: nat): seq<CallInfo> {
    match rec(l, p)
    case Some(ci) => [ci]
    case None => []
  }

  /** The records offered while processing the blocks of `order`, in order. */
  function Offers(rec: (nat, nat) -> Option<CallInfo>, g: Graph, order: seq<(nat, nat)>): seq<CallInfo> {
    if order == [] then []
    else
      var last := order[|order| - 1];
      Offers(rec, g, order[..|order| - 1]) + BlockOffers(rec, last.0, Body(g, last.1))
  }

  /** The walk the pass performs: the post-order from an empty `Processed`. */
  function Processed(s: Setting): seq<(nat, nat)> {
    Walk(s.f, s.g, s.g.postOrder, [])
  }

  /** `Calls_` after the walk. */
  function WalkTable(s: Setting): map<(nat, nat), CallInfo> {
    InsertAll(map[], Offers(RecordsOf(s), s.g, Processed(s)))
  }

  lemma {:induction false} InsertAllAppend(m: map<(nat, nat), CallInfo>, a: seq<CallInfo>, b: seq<CallInfo>)
    ensures InsertAll(m, a + b) == InsertAll(InsertAll(m, a), b)
  {
    if b != [] {
      InsertAllAppend(m, a, b[..|b| - 1]);
      assert (a + b)[..|a + b| - 1] == a + b[..|b| - 1];
      assert (a + b)[|a + b| - 1] == b[|b| - 1];
    } else {
      assert a + b == a;
    }
  }

  lemma {:induction false} OfferedHas(cs: seq<CallInfo>, i: nat)
    requires i < |cs|
    ensures cs[i] in Offered(cs, KeyOf(cs[i]))
  {
    var n := |cs| - 1;
    if i < n {
      OfferedHas(cs[..n], i);
      assert cs[..n][i] == cs[i];
    }
  }

  lemma {:induction false} BlockOffersHas(rec: (nat, nat) -> Option<CallInfo>, l: nat, xs: seq<nat>, j: nat)
    requires j < |xs| && rec(l, xs[j]).Some?
    ensures rec(l, xs[j]).value in BlockOffers(rec, l, xs)
  {
    var n := |xs| - 1;
    if j < n {
      BlockOffersHas(rec, l, xs[..n], j);
      assert xs[..n][j] == xs[j];
    }
  }

  lemma {:induction false} OffersHas(rec: (nat, nat) -> Option<CallInfo>, g: Graph, order: seq<(nat, nat)>, i: nat, ci: CallInfo)
    requires i < |order| && ci in BlockOffers(rec, order[i].0, Body(g, order[i].1))
    ensures ci in Offers(rec, g, order)
  {
    var n := |order| - 1;
    if i < n {
      assert order[..n][i] == order[i];
      OffersHas(rec, g, order[..n], i, ci);
    }
  }

  /**
   * Every access the walk reaches is covered by the table: if a block is
   * processed, for the first walked loop that contains it, and one of its
   * instructions yields a record, then the table holds a record under the
   * same (preheader, array) whose min is at most and whose max is at least
   * that record's, in every execution.
   */
  lemma {:induction false} WalkCovers(s: Setting, b: nat, l: nat, p: nat)
    requires Ready(s) && FirstClaim(s.f, s.g, s.g.postOrder, b) == Some(l) && p in Body(s.g, b)
    requires CallFor(s.rule, s.pass, s.f, s.g, s.lay, s.fuel, s.execs, l, p).Some?
    ensures var ci := CallFor(s.rule, s.pass, s.f, s.g, s.lay, s.fuel, s.execs, l, p).value;
      KeyOf(ci) in WalkTable(s) &&
      forall env :: EvalEmitted(WalkTable(s)[KeyOf(ci)].min, env) <= EvalEmitted(ci.min, env) &&
                    EvalEmitted(ci.max, env) <= EvalEmitted(WalkTable(s)[KeyOf(ci)].max, env)
  {
    var ci := CallFor(s.rule, s.pass, s.f, s.g, s.lay, s.fuel, s.execs, l, p).value;
    var order := Processed(s);
    WalkSpec(s.f, s.g, s.g.postOrder, []);
    var i :| 0 <= i < |order| && order[i].1 == b;
    assert order[i].0 == l;
    var j :| 0 <= j < |Body(s.g, b)| && Body(s.g, b)[j] == p;
    BlockOffersHas(RecordsOf(s), l, Body(s.g, b), j);
    OffersHas(RecordsOf(s), s.g, order, i, ci);
    var cs := Offers(RecordsOf(s), s.g, order);
    var k :| 0 <= k < |cs| && cs[k] == ci;
    OfferedHas(cs, k);
    InsertAllMerges(cs, KeyOf(ci));
    var rs := Offered(cs, KeyOf(ci));
    var m :| 0 <= m < |rs| && rs[m] == ci;
    forall env ensures EvalEmitted(WalkTable(s)[KeyOf(ci)].min, env) <= EvalEmitted(ci.min, env) &&
                       EvalEmitted(ci.max, env) <= EvalEmitted(WalkTable(s)[KeyOf(ci)].max, env) {
      MergeAllBounds(rs, env);
    }
  }

  // ---------------------------------------------------------------------
  // The walk, step by step
  // ---------------------------------------------------------------------

  lemma BlocksOfAppend(order: seq<(nat, nat)>, x: (nat, nat))
    ensures BlocksOf(order + [x]) == BlocksOf(order) + {x.1}
  {
    PrefixBlocks(order, order + [x]);
    assert (order + [x])[|order|] == x;
    forall b | b in BlocksOf(order + [x]) ensures b in BlocksOf(order) + {x.1} {
      var i :| 0 <= i < |order| + 1 && (order + [x])[i].1 == b;
      if i < |order| { assert order[i] == (order + [x])[i]; }
    }
  }

  lemma OffersAppend(rec: (nat, nat) -> Option<CallInfo>, g: Graph, order: seq<(nat, nat)>, x: (nat, nat))
    ensures Offers(rec, g, order + [x]) == Offers(rec, g, order) + BlockOffers(rec, x.0, Body(g, x.1))
  {
    assert (order + [x])[..|order|] == order;
  }

  /** `generateCallFor(L, &I)`, seen as offering zero or one record. */
  method VisitInst(s: Setting, l: nat, p: nat, table: CallTable, t: SymbolTable)
    requires Ready(s) && l in s.f.loops && t.Valid() && TableOf(t, s.f) && table.Valid()
    modifies table, t
    ensures t.Valid() && TableOf(t, s.f) && table.Valid()
    ensures table.calls == InsertAll(old(table.calls), OfferOf(RecordsOf(s), l, p))
  {
    var made := GenerateCallFor(s.rule, s.pass, s.f, s.g, s.lay, s.fuel, s.execs, l, p, table, t);
    if made {
      assert OfferOf(RecordsOf(s), l, p)[..0] == [];
    }
  }

  /** Offering the record of instruction `k` after those of `xs[..k]` is offering those of `xs[..k + 1]`. */
  lemma {:induction false} OfferStep(calls0: map<(nat, nat), CallInfo>, rec: (nat, nat) -> Option<CallInfo>, l: nat,
                                     xs: seq<nat>, k: nat)
    requires k < |xs|
    ensures InsertAll(InsertAll(calls0, BlockOffers(rec, l, xs[..k])), OfferOf(rec, l, xs[k])) ==
      InsertAll(calls0, BlockOffers(rec, l, xs[..k + 1]))
  {
    assert xs[..k + 1][..k] == xs[..k];
    InsertAllAppend(calls0, BlockOffers(rec, l, xs[..k]), OfferOf(rec, l, xs[k]));
  }

  /** `for (auto &I : *BB) generateCallFor(L, &I);` */
  method VisitBlock(s: Setting, l: nat, b: nat, table: CallTable, t: SymbolTable)
    requires Ready(s) && l in s.f.loops && t.Valid() && TableOf(t, s.f) && table.Valid()
    modifies table, t
    ensures t.Valid() && TableOf(t, s.f) && table.Valid()
    ensures table.calls == InsertAll(old(table.calls), BlockOffers(RecordsOf(s), l, Body(s.g, b)))
  {
    var xs := Body(s.g, b);
    ghost var calls0 := table.calls;
    ghost var rec := RecordsOf(s);
    var k := 0;
    while k < |xs|
      invariant k <= |xs| && t.Valid() && TableOf(t, s.f) && table.Valid()
      invariant table.calls == InsertAll(calls0, BlockOffers(rec, l, xs[..k]))
    {
      OfferStep(calls0, rec, l, xs, k);
      VisitInst(s, l, xs[k], table, t);
      k := k + 1;
    }
    assert xs[..k] == xs;
  }

  /**
   * The blocks of `L` in `block_begin` order, each processed unless
   * `Processed` already holds it.  `order` is the ghost history behind
   * `processed`, and `base` the table the walk started from.
   */
  method VisitLoop(s: Setting, l: nat, processed: set<nat>, ghost order: seq<(nat, nat)>, ghost base: map<(nat, nat), CallInfo>,
                   table: CallTable, t: SymbolTable) returns (done: set<nat>, ghost order': seq<(nat, nat)>)
    requires Ready(s) && l in s.f.loops && t.Valid() && TableOf(t, s.f) && table.Valid()
    requires processed == BlocksOf(order) && table.calls == InsertAll(base, Offers(RecordsOf(s), s.g, order))
    modifies table, t
    ensures t.Valid() && TableOf(t, s.f) && table.Valid()
    ensures order' == VisitBlocks(l, LoopBlocks(s.g, l), order) && done == BlocksOf(order')
    ensures table.calls == InsertAll(base, Offers(RecordsOf(s), s.g, order'))
  {
    var bs := LoopBlocks(s.g, l);
    done, order' := processed, order;
    var k := 0;
    while k < |bs|
      invariant k <= |bs| && done == BlocksOf(order')
      invariant VisitBlocks(l, bs, order) == VisitBlocks(l, bs[k..], order')
      invariant t.Valid() && TableOf(t, s.f) && table.Valid()
      invariant table.calls == InsertAll(base, Offers(RecordsOf(s), s.g, order'))
    {
      var b := bs[k];
      if b !in done {
        BlocksOfAppend(order', (l, b));
        OffersAppend(RecordsOf(s), s.g, order', (l, b));
        InsertAllAppend(base, Offers(RecordsOf(s), s.g, order'), BlockOffers(RecordsOf(s), l, Body(s.g, b)));
        done := done + {b};
        order' := order' + [(l, b)];
        VisitBlock(s, l, b, table, t);
      }
      assert bs[k..][1..] == bs[k + 1..];
      k := k + 1;
    }
  }

  /**
   * The walk over the dominator tree's post-order: every simple loop
   * whose header is reached has its unprocessed blocks processed.
   */
  method WalkLoops(s: Setting, table: CallTable, t: SymbolTable)
    requires Ready(s) && t.Valid() && TableOf(t, s.f) && table.Valid() && table.calls == map[]
    modifies table, t
    ensures t.Valid() && TableOf(t, s.f) && table.Valid()
    ensures table.calls == WalkTable(s)
  {
    var hs := s.g.postOrder;
    var processed: set<nat> := {};
    ghost var order: seq<(nat, nat)> := [];
    var k := 0;
    while k < |hs|
      invariant k <= |hs| && processed == BlocksOf(order)
      invariant Walk(s.f, s.g, hs, []) == Walk(s.f, s.g, hs[k..], order)
      invariant t.Valid() && TableOf(t, s.f) && table.Valid()
      invariant table.calls == InsertAll(map[], Offers(RecordsOf(s), s.g, order))
    {
      var h := hs[k];
      if IsHeader(s.f, h) {
        var l := s.f.loopOf[h];
        if Simple(s.f, s.g, l) {
          processed, order := VisitLoop(s, l, processed, order, map[], table, t);
        }
      }
      assert hs[k..][1..] == hs[k + 1..];
      k := k + 1;
    }
  }

  // ---------------------------------------------------------------------
  // The runtime calls
  // ---------------------------------------------------------------------

  /** `{ VoidArray, CI.Min, CI.Max, CI.Reuse }`. */
  datatype Args = Args(arr: nat, min: Emitted, max: Emitted, reuse: Emitted)

  /** Where a call goes: before a block's terminator or at its first instruction. */
  datatype Point = BeforeTerminator(block: nat) | AtStart(block: nat)

  datatype Runtime = FasanCheck | SpmGet | SpmGive | SpmInit | SpmEnd

  datatype RuntimeCall = RuntimeCall(fn: Runtime, at: Point, args: Option<Args>)

  function ArgsOf(ci: CallInfo): Args {
    Args(ci.arr, ci.min, ci.max, ci.reuse)
  }

  /**
   * The calls one record turns into: for Fasan `__fasan_check` before the
   * preheader's terminator; for Spm `__spm_get` there and `__spm_give`
   * with the same arguments at the start of the exit block.
   */
  function CallsFor(pass: Pass, ci: CallInfo): set<RuntimeCall> {
    if pass.Fasan? then {RuntimeCall(FasanCheck, BeforeTerminator(ci.preheader), Some(ArgsOf(ci)))}
    else {RuntimeCall(SpmGet, BeforeTerminator(ci.preheader), Some(ArgsOf(ci))),
          RuntimeCall(SpmGive, AtStart(ci.exit), Some(ArgsOf(ci)))}
  }

  /** The calls of the records `cis`. */
  function Emission(pass: Pass, cis: set<CallInfo>): set<RuntimeCall> {
    set ci, c | ci in cis && c in CallsFor(pass, ci) :: c
  }

  /** The loop over `Calls_`, in whatever order the set yields its records. */
  method EmitCalls(pass: Pass, table: CallTable) returns (out: set<RuntimeCall>)
    ensures out == Emission(pass, table.calls.Values)
  {
    var todo := table.calls.Values;
    ghost var done: set<CallInfo> := {};
    out := {};
    while todo != {}
      invariant done + todo == table.calls.Values && out == Emission(pass, done)
      decreases |todo|
    {
      var ci :| ci in todo;
      out := out + CallsFor(pass, ci);
      done := done + {ci};
      todo := todo - {ci};
    }
  }

  /**
   * The Spm pass' calls in `main`: `__spm_init` at the start of the entry
   * block and `__spm_end` before every return (the Fasan pass has this
   * disabled).
   */
  function MainCalls(pass: Pass, name: string, entry: nat, returnBlocks: set<nat>): set<RuntimeCall> {
    if pass.Spm? && name == "main" then
      {RuntimeCall(SpmInit, AtStart(entry), None)} + (set b | b in returnBlocks :: RuntimeCall(SpmEnd, BeforeTerminator(b), None))
    else {}
  }

  /** A function is skipped when a filter name is set and the function has another name. */
  predicate Skipped(name: string, filter: string) {
    filter != "" && name != filter
  }

  /** All the runtime calls the pass adds to a function. */
  function PassCalls(s: Setting, name: string, filter: string, entry: nat, returnBlocks: set<nat>): set<RuntimeCall> {
    MainCalls(s.pass, name, entry, returnBlocks) +
    if Skipped(name, filter) then {} else Emission(s.pass, WalkTable(s).Values)
  }

  /**
   * `runOnFunction`: the calls in `main` (Spm), the function filter,
   * `Calls_.clear()`, the walk and the emission.  A skipped function keeps
   * the table it had.
   */
  method RunOnFunction(s: Setting, name: string, filter: string, entry: nat, returnBlocks: set<nat>, table: CallTable, t: SymbolTable)
    returns (emitted: set<RuntimeCall>)
    requires Ready(s) && t.Valid() && TableOf(t, s.f) && table.Valid()
    modifies table, t
    ensures t.Valid() && TableOf(t, s.f) && table.Valid()
    ensures emitted == PassCalls(s, name, filter, entry, returnBlocks)
    ensures table.calls == if Skipped(name, filter) then old(table.calls) else WalkTable(s)
  {
    emitted := MainCalls(s.pass, name, entry, returnBlocks);
    if Skipped(name, filter) {
      return;
    }
    table.Clear();
    WalkLoops(s, table, t);
    var calls := EmitCalls(s.pass, table);
    emitted := emitted + calls;
  }

  /**
   * What the pass promises: when the walk reaches an access and builds a
   * record for it, the function gets a range check (Fasan) or a page
   * request (Spm) before its preheader's terminator, on the access'
   * array, whose min and max bracket the access' byte offset in every
   * consistent execution in which the interval analysis' assumptions hold
   * (proved for the corrected interval rules).
   */
  lemma {:induction false} CheckCoversAccess(s: Setting, name: string, filter: string, entry: nat, returnBlocks: set<nat>,
                                             b: nat, l: nat, p: nat, env: nat -> real)
    requires Ready(s) && s.rule.Corrected? && !Skipped(name, filter)
    requires FirstClaim(s.f, s.g, s.g.postOrder, b) == Some(l) && p in Body(s.g, b)
    requires CallFor(s.rule, s.pass, s.f, s.g, s.lay, s.fuel, s.execs, l, p).Some?
    requires Consistent(s.f, env) && SizesFit(s.lay)
    requires var red := Reduce(s.f, s.lay, PointerOperand(s.f, p), Fresh);
      Proper(red.offset) && Assumed(s.pass, s.f, s.fuel, red.offset, SymEnv(env))
    ensures var ci := CallFor(s.rule, s.pass, s.f, s.g, s.lay, s.fuel, s.execs, l, p).value; var q := PointerOperand(s.f, p);
      exists a :: RuntimeCall(if s.pass.Fasan? then FasanCheck else SpmGet, BeforeTerminator(ci.preheader), Some(a))
                    in PassCalls(s, name, filter, entry, returnBlocks) &&
                  a.arr == Root(s.f, q) &&
                  EvalEmitted(a.min, SymEnv(env)) <= Distance(s.f, s.lay, q, env) <= EvalEmitted(a.max, SymEnv(env))
  {
    var ci := CallFor(s.rule, s.pass, s.f, s.g, s.lay, s.fuel, s.execs, l, p).value;
    var q := PointerOperand(s.f, p);
    var root, d, senv := Root(s.f, q), Distance(s.f, s.lay, q, env), SymEnv(env);
    CallForSound(s.pass, s.f, s.g, s.lay, s.fuel, s.execs, l, p, env);
    WalkCovers(s, b, l, p);
    StoredCovers(s, name, filter, entry, returnBlocks, ci, root, d, senv);
  }

  /**
   * The record stored under the key of `ci` widens `ci`'s bracket, so its
   * emitted call brackets whatever `ci` brackets.
   */
  lemma {:induction false} StoredCovers(s: Setting, name: string, filter: string, entry: nat, returnBlocks: set<nat>,
                                        ci: CallInfo, root: nat, d: real, senv: Symbol -> real)
    requires !Skipped(name, filter) && KeyOf(ci) in WalkTable(s)
    requires forall env :: EvalEmitted(WalkTable(s)[KeyOf(ci)].min, env) <= EvalEmitted(ci.min, env) &&
                           EvalEmitted(ci.max, env) <= EvalEmitted(WalkTable(s)[KeyOf(ci)].max, env)
    requires ci.arr == root && EvalEmitted(ci.min, senv) <= d <= EvalEmitted(ci.max, senv)
    ensures exists a :: RuntimeCall(if s.pass.Fasan? then FasanCheck else SpmGet, BeforeTerminator(ci.preheader), Some(a))
                          in PassCalls(s, name, filter, entry, returnBlocks) &&
                        a.arr == root && EvalEmitted(a.min, senv) <= d <= EvalEmitted(a.max, senv)
  {
    InsertAllMerges(Offers(RecordsOf(s), s.g, Processed(s)), KeyOf(ci));
    var stored := WalkTable(s)[KeyOf(ci)];
    assert KeyOf(stored) == KeyOf(ci);
    EmittedFor(s, name, filter, entry, returnBlocks, KeyOf(ci));
    var a := ArgsOf(stored);
    assert EvalEmitted(a.min, senv) <= EvalEmitted(ci.min, senv) && EvalEmitted(ci.max, senv) <= EvalEmitted(a.max, senv);
  }

  /** A record stored under `key` is emitted as a check (Fasan) or a page request (Spm) before its preheader's terminator. */
  lemma {:induction false} EmittedFor(s: Setting, name: string, filter: string, entry: nat, returnBlocks: set<nat>,
                                      key: (nat, nat))
    requires !Skipped(name, filter) && key in WalkTable(s)
    ensures var stored := WalkTable(s)[key];
      RuntimeCall(if s.pass.Fasan? then FasanCheck else SpmGet, BeforeTerminator(stored.preheader), Some(ArgsOf(stored)))
        in PassCalls(s, name, filter, entry, returnBlocks)
  {
    var stored := WalkTable(s)[key];
    assert stored in WalkTable(s).Values;
    var call := RuntimeCall(if s.pass.Fasan? then FasanCheck else SpmGet, BeforeTerminator(stored.preheader), Some(ArgsOf(stored)));
    assert call in CallsFor(s.pass, stored);
  }
}
