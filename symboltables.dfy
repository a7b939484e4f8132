/**
 * The cache object itself: the maps and the counter of the expression
 * layer, updated in place as values are turned into symbols, and the
 * reverse lookups `getSymbolValue` and `getValue`.
 */
module SymbolTables {
  import opened Wrappers
  import opened Bits
  import opened SymExpr
  import opened Intern

  class SymbolTable {
    var exprs: map<Value, Expr>
    var ids: map<Value, nat>
    var values: map<string, Value>
    /** The name each symbol was created with, by the address of its value. */
    var names: map<nat, string>
    /** The static counter of `GetName`. */
    var nextId: nat

    /**
     * Every cached value has its own id below the counter and its own
     * address, its symbol is `Bound(ptr)` named after it, and `values` maps
     * exactly the generated names back to their values.
     */
    ghost predicate Valid()
      reads this
    {
      Cache(exprs, ids, values, names, nextId)
    }

    /** No other cached value has the address of `v`. */
    predicate OwnAddress(v: Value)
      reads this
    {
      forall w :: w in ids && w.ptr == v.ptr ==> w == v
    }

    constructor ()
      ensures Valid() && exprs == map[] && ids == map[] && values == map[] && names == map[] && nextId == 0
    {
      exprs, ids, values, names, nextId := map[], map[], map[], map[], 0;
    }

    /** `GetName`: an id for `v` from the counter the first time, then its name. */
    method GetName(v: Value) returns (name: string)
      modifies this
      ensures exprs == old(exprs) && values == old(values) && names == old(names)
      ensures v in old(ids) ==> ids == old(ids) && nextId == old(nextId)
      ensures v !in old(ids) ==> ids == old(ids)[v := old(nextId)] && nextId == old(nextId) + 1
      ensures v in ids && name == SymbolName(v, ids[v])
    {
      if v !in ids {
        ids := ids[v := nextId];
        nextId := nextId + 1;
      }
      name := BaseName(v) + "." + NatToString(ids[v]);
    }

    /**
     * `Expr(Value*)`: a ConstantInt is the number of its sign-extended value
     * and leaves the maps alone; a cached value gives its cached symbol; any
     * other value gets a fresh symbol named by `GetName`, recorded in
     * `Exprs` and, under its name, in `Values`.
     */
    method FromValue(v: Value) returns (e: Expr)
      requires Valid() && WellTyped(v) && OwnAddress(v)
      modifies this
      ensures Valid() && e == Atom(v)
      ensures v.kind.ConstantInt? ==> (e == Num(ToSigned(v.kind.bits, v.width) as real) &&
        exprs == old(exprs) && ids == old(ids) && values == old(values) && names == old(names) && nextId == old(nextId))
      ensures !v.kind.ConstantInt? && v in old(exprs) ==> (e == old(exprs[v]) &&
        exprs == old(exprs) && ids == old(ids) && values == old(values) && names == old(names) && nextId == old(nextId))
      ensures !v.kind.ConstantInt? && v !in old(exprs) ==>
        e == Sym(Bound(v.ptr)) && nextId == old(nextId) + 1 &&
        exprs == old(exprs)[v := e] && ids == old(ids)[v := old(nextId)] &&
        names == old(names)[v.ptr := SymbolName(v, old(nextId))] &&
        values == old(values)[SymbolName(v, old(nextId)) := v]
      ensures !v.kind.ConstantInt? ==> v in exprs && e == exprs[v] && SymbolValue(e) == Some(v)
    {
      if v.kind.ConstantInt? {
        return Num(ToSigned(v.kind.bits, v.width) as real);
      }
      if v in exprs {
        SymbolValueInverts(v);
        return exprs[v];
      }
      e := Record(v);
      SymbolValueInverts(v);
    }

    /** The miss path of `Expr(Value*)`: a fresh symbol, recorded in the three maps. */
    method Record(v: Value) returns (e: Expr)
      requires Valid() && !v.kind.ConstantInt? && v !in exprs && OwnAddress(v)
      modifies this
      ensures Valid()
      ensures e == Sym(Bound(v.ptr)) && nextId == old(nextId) + 1
      ensures exprs == old(exprs)[v := e] && ids == old(ids)[v := old(nextId)]
      ensures names == old(names)[v.ptr := SymbolName(v, old(nextId))]
      ensures values == old(values)[SymbolName(v, old(nextId)) := v]
    {
      var id := nextId;
      var name := GetName(v);
      FreshName(values, old(ids), names, v, id);
      e := Sym(Bound(v.ptr));
      exprs := exprs[v := e];
      values := values[name := v];
      names := names[v.ptr := name];
      ValidAfterRecord(old(exprs), old(ids), old(values), old(names), id, v);
    }

    /**
     * `getSymbolValue` of a symbol: the value recorded under the symbol's
     * name, None (the source's null) when there is none.
     */
    function SymbolValue(e: Expr): Option<Value>
      reads this
      requires e.Sym?
    {
      var name := if e.s.InvalidSymbol? then InvalidName
                  else if e.s.value in names then names[e.s.value] else "";
      if name in values then Some(values[name]) else None
    }

    /** `getSymbolValue` inverts `Expr(Value*)`. */
    lemma {:induction false} SymbolValueInverts(v: Value)
      requires Valid() && v in exprs
      ensures exprs[v].Sym? && SymbolValue(exprs[v]) == Some(v)
    {
      var w := values[names[v.ptr]];
      assert w.ptr == v.ptr && w in ids;
    }

    /** The Invalid symbol stands for no value. */
    lemma {:induction false} InvalidHasNoValue()
      requires Valid()
      ensures SymbolValue(Invalid) == None
    {
      if InvalidName in values {
        var w := values[InvalidName];
        assert names[w.ptr] == InvalidName;
        InvalidNameNotGenerated(w, ids[w]);
      }
    }

    /** Distinct values never share a symbol. */
    lemma {:induction false} SymbolsDistinct(v: Value, w: Value)
      requires Valid() && v in exprs && w in exprs && v != w
      ensures exprs[v] != exprs[w]
    {
    }

    /**
     * `getValue(Ty)` of an atom: a number becomes a constant of the type (a
     * rational truncated toward zero first); a symbol becomes its value,
     * sign-extended when narrower than the type and truncated when wider;
     * anything else, or a symbol without a value, gives None.
     */
    function GetValue(e: Expr, width: nat): (r: Option<Lowered>)
      reads this
      ensures e.Num? ==> r == Some(ConstantBits(Wrap(TruncateToLong(e.c), width), width))
      ensures !e.Num? && !e.Sym? ==> r == None
      ensures e.Sym? ==> (r.Some? <==> SymbolValue(e).Some?)
      ensures e.Sym? && r.Some? ==> var v := SymbolValue(e).value;
        r.value == (if v.width == width then AsIs(v) else if v.width < width then SExtTo(v, width) else TruncTo(v, width))
    {
      match e
      case Num(c) => Some(ConstantBits(Wrap(TruncateToLong(c), width), width))
      case Sym(_) =>
        (match SymbolValue(e)
         case None => None
         case Some(v) =>
           if v.width == width then Some(AsIs(v))
           else if v.width < width then Some(SExtTo(v, width))
           else Some(TruncTo(v, width)))
      case _ => None
    }
  }

  /** A lowered atom at run time, given each integer value's bit pattern `env`. */
  function LoweredBits(l: Lowered, env: Value -> int): int
    requires (l.AsIs? || l.SExtTo? || l.TruncTo?) ==> l.v.width >= 1 && Fits(env(l.v), l.v.width)
  {
    match l
    case ConstantBits(b, _) => b
    case AsIs(v) => env(v)
    case SExtTo(v, w) => if v.width <= w then Sext(env(v), v.width, w) else env(v)
    case TruncTo(v, w) => Trunc(env(v), w)
  }

  /**
   * A symbol lowered to a wider type keeps its signed value; lowered to its
   * own type it is the value itself; lowered to a narrower type it keeps its
   * low bits.
   */
  lemma {:induction false} LoweredSymbolMeaning(t: SymbolTable, v: Value, width: nat, env: Value -> int)
    requires t.Valid() && v in t.exprs && v.width >= 1 && width >= 1 && Fits(env(v), v.width)
    ensures t.GetValue(t.exprs[v], width).Some?
    ensures var b := LoweredBits(t.GetValue(t.exprs[v], width).value, env);
      Fits(b, width) &&
      (v.width <= width ==> ToSigned(b, width) == ToSigned(env(v), v.width)) &&
      (v.width > width ==> b == env(v) % Pow2(width))
  {
    t.SymbolValueInverts(v);
  }
}
