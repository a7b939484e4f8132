/**
 * The value-to-symbol cache behind `Expr(Value*)` / `RExpr(Value*)`: the
 * `Exprs`, `Ids` and `Values` maps and the static `Id` counter, identical in
 * the three expression layers.  The maps are keyed by `Value*`, so a GiNaC
 * symbol is modelled as `Bound(ptr)` for the address of the value it was
 * made for; the name GiNaC stores inside the symbol is kept in `names`,
 * keyed by that address.
 */
module Intern {
  import opened Wrappers
  import opened Bits
  import opened SymExpr

  /** What the cache asks of an LLVM value besides its identity. */
  datatype ValueKind = ConstantInt(bits: int) | Instruction | Argument | OtherKind

  /**
   * An LLVM value: its address, kind, name (empty when it has none) and the
   * width of its integer type (0 when it is not an integer).
   */
  datatype Value = Value(ptr: nat, kind: ValueKind, name: string, width: nat)

  /** A constant's bit pattern fits its type, of at most 64 bits as `getSExtValue` requires. */
  predicate WellTyped(v: Value) {
    v.kind.ConstantInt? ==> 1 <= v.width <= 64 && Fits(v.kind.bits, v.width)
  }

  // ---------------------------------------------------------------------
  // Symbol names
  // ---------------------------------------------------------------------

  predicate IsDigit(c: char) { '0' <= c <= '9' }

  /** `std::to_string` of an unsigned id. */
  function NatToString(n: nat): (s: string)
    ensures |s| >= 1 && forall i :: 0 <= i < |s| ==> IsDigit(s[i])
    decreases n
  {
    var d := ('0' as int + n % 10) as char;
    if n < 10 then [d] else NatToString(n / 10) + [d]
  }

  /** The decimal number a digit string denotes. */
  function ParseNat(s: string): nat
    requires forall i :: 0 <= i < |s| ==> IsDigit(s[i])
  {
    if s == [] then 0 else 10 * ParseNat(s[..|s| - 1]) + DigitValue(s[|s| - 1])
  }

  function DigitValue(c: char): nat
    requires IsDigit(c)
  {
    c as int - '0' as int
  }

  lemma {:induction false} ParseNatToString(n: nat)
    ensures ParseNat(NatToString(n)) == n
    decreases n
  {
    var s := NatToString(n);
    if n >= 10 {
      ParseNatToString(n / 10);
      assert s[..|s| - 1] == NatToString(n / 10);
    }
  }

  /** The base of a value's symbol name. */
  function BaseName(v: Value): string {
    if v.name != [] then
      if v.kind.Instruction? || v.kind.Argument? then v.name
      else "__SRA_SYM_UNKNOWN_" + v.name + "__"
    else "__SRA_SYM_UNAMED__"
  }

  /** `GetName`: the base, a dot, and the value's id. */
  function SymbolName(v: Value, id: nat): string {
    BaseName(v) + "." + NatToString(id)
  }

  /** The name of the static symbol behind `InvalidExpr()`. */
  const InvalidName: string := "__INVALID__"

  /**
   * A generated name determines its id (the digits after the last dot), so
   * symbols of distinct ids have distinct names whatever their bases.
   */
  lemma {:induction false} NameDeterminesId(b1: string, n1: nat, b2: string, n2: nat)
    requires b1 + "." + NatToString(n1) == b2 + "." + NatToString(n2)
    ensures n1 == n2 && b1 == b2
  {
    var d1, d2 := NatToString(n1), NatToString(n2);
    var s := b1 + "." + d1;
    LastDotOf(b1, d1);
    LastDotOf(b2, d2);
    assert d1 == s[|b1| + 1..] == d2;
    ParseNatToString(n1);
    ParseNatToString(n2);
    assert b1 == s[..|b1|] == b2;
  }

  /** Position of the last dot of `s`, -1 when there is none. */
  function LastDot(s: string): int {
    if s == [] then -1 else if s[|s| - 1] == '.' then |s| - 1 else LastDot(s[..|s| - 1])
  }

  lemma {:induction false} LastDotOf(b: string, d: string)
    requires forall i :: 0 <= i < |d| ==> IsDigit(d[i])
    ensures LastDot(b + "." + d) == |b|
    decreases |d|
  {
    var s := b + "." + d;
    if d == [] {
      assert s[|s| - 1] == '.';
    } else {
      assert s[..|s| - 1] == b + "." + d[..|d| - 1];
      LastDotOf(b, d[..|d| - 1]);
    }
  }

  /** No generated name is the Invalid symbol's name: that one has no dot. */
  lemma {:induction false} InvalidNameNotGenerated(v: Value, id: nat)
    ensures SymbolName(v, id) != InvalidName
  {
    var s := SymbolName(v, id);
    assert s[|BaseName(v)|] == '.';
  }

  // ---------------------------------------------------------------------
  // The cache
  // ---------------------------------------------------------------------

  /**
   * The expression `Expr(Value*)` yields for `v`: the number of a
   * ConstantInt's sign-extended value, otherwise the symbol of its address.
   */
  function Atom(v: Value): (e: Expr)
    requires WellTyped(v)
    ensures Clean(e) && (e.Num? <==> v.kind.ConstantInt?)
    ensures e.Num? ==> Integral(e.c)
  {
    if v.kind.ConstantInt? then
      Num(ToSigned(v.kind.bits, v.width) as real)
    else Sym(Bound(v.ptr))
  }

  /** How `getValue` materialises an atom at a given integer type. */
  datatype Lowered =
    | ConstantBits(bits: int, width: nat)   // an integer constant of that type
    | AsIs(v: Value)                         // the symbol's value, of that type already
    | SExtTo(v: Value, width: nat)           // the value, sign-extended
    | TruncTo(v: Value, width: nat)          // the value, truncated

  /** `(long)` of a rational: truncation toward zero. */
  function TruncateToLong(c: real): int {
    if c >= 0.0 then c.Floor else -((-c).Floor)
  }

  /** The invariant of the cache over its maps and counter. */
  ghost predicate Cache(exprs: map<Value, Expr>, ids: map<Value, nat>, values: map<string, Value>, names: map<nat, string>, nextId: nat) {
    exprs.Keys == ids.Keys &&
    (forall v :: v in ids ==> !v.kind.ConstantInt? && ids[v] < nextId && exprs[v] == Sym(Bound(v.ptr))) &&
    (forall v, w :: v in ids && w in ids && v != w ==> ids[v] != ids[w] && v.ptr != w.ptr) &&
    (forall v :: v in ids ==> v.ptr in names && names[v.ptr] == SymbolName(v, ids[v])) &&
    (forall i :: i in names ==> names[i] in values && values[names[i]].ptr == i) &&
    (forall n :: n in values ==> values[n] in ids && values[n].ptr in names && names[values[n].ptr] == n)
  }

  /** Recording a new value under the next id keeps the invariant. */
  lemma {:induction false} ValidAfterRecord(exprs: map<Value, Expr>, ids: map<Value, nat>, values: map<string, Value>,
                                            names: map<nat, string>, id: nat, v: Value)
    requires Cache(exprs, ids, values, names, id) && !v.kind.ConstantInt? && v !in ids
    requires forall w :: w in ids ==> w.ptr != v.ptr
    ensures Cache(exprs[v := Sym(Bound(v.ptr))], ids[v := id], values[SymbolName(v, id) := v],
                  names[v.ptr := SymbolName(v, id)], id + 1)
  {
    FreshName(values, ids, names, v, id);
    var n := SymbolName(v, id);
    assert v.ptr !in names;
    IdsAfterRecord(exprs, ids, v, id, exprs[v := Sym(Bound(v.ptr))], ids[v := id]);
    SymbolNamesAfterRecord(ids, names, v, id, n, ids[v := id], names[v.ptr := n]);
    NamesAfterRecord(values, names, v, n, values[n := v], names[v.ptr := n]);
    ValuesAfterRecord(values, ids, names, v, id, n, values[n := v], ids[v := id], names[v.ptr := n]);
  }

  lemma {:induction false} IdsAfterRecord(exprs: map<Value, Expr>, ids: map<Value, nat>, v: Value, id: nat,
                                          exprs': map<Value, Expr>, ids': map<Value, nat>)
    requires exprs.Keys == ids.Keys
    requires forall u :: u in ids ==> !u.kind.ConstantInt? && ids[u] < id && exprs[u] == Sym(Bound(u.ptr))
    requires forall u, w :: u in ids && w in ids && u != w ==> ids[u] != ids[w] && u.ptr != w.ptr
    requires !v.kind.ConstantInt? && v !in ids && forall u :: u in ids ==> u.ptr != v.ptr
    requires exprs' == exprs[v := Sym(Bound(v.ptr))] && ids' == ids[v := id]
    ensures exprs'.Keys == ids'.Keys
    ensures forall u :: u in ids' ==> !u.kind.ConstantInt? && ids'[u] < id + 1 && exprs'[u] == Sym(Bound(u.ptr))
    ensures forall u, w :: u in ids' && w in ids' && u != w ==> ids'[u] != ids'[w] && u.ptr != w.ptr
  {
    forall u, w | u in ids' && w in ids' && u != w
      ensures ids'[u] != ids'[w] && u.ptr != w.ptr
    {
      if u != v && w != v {
        assert ids'[u] == ids[u] && ids'[w] == ids[w];
      }
    }
  }

  lemma {:induction false} SymbolNamesAfterRecord(ids: map<Value, nat>, names: map<nat, string>, v: Value, id: nat, n: string,
                                                  ids': map<Value, nat>, names': map<nat, string>)
    requires forall u :: u in ids ==> u.ptr in names && names[u.ptr] == SymbolName(u, ids[u])
    requires forall u :: u in ids ==> u.ptr != v.ptr
    requires ids' == ids[v := id] && names' == names[v.ptr := n] && n == SymbolName(v, id)
    ensures forall u :: u in ids' ==> u.ptr in names' && names'[u.ptr] == SymbolName(u, ids'[u])
  {
    forall u | u in ids'
      ensures u.ptr in names' && names'[u.ptr] == SymbolName(u, ids'[u])
    {
      if u != v {
        assert u.ptr != v.ptr && ids'[u] == ids[u];
      }
    }
  }

  lemma {:induction false} NamesAfterRecord(values: map<string, Value>, names: map<nat, string>, v: Value, n: string,
                                            values': map<string, Value>, names': map<nat, string>)
    requires forall i :: i in names ==> names[i] in values && values[names[i]].ptr == i
    requires n !in values && values' == values[n := v] && names' == names[v.ptr := n]
    ensures forall i :: i in names' ==> names'[i] in values' && values'[names'[i]].ptr == i
  {
    forall i | i in names'
      ensures names'[i] in values' && values'[names'[i]].ptr == i
    {
      if i != v.ptr {
        assert names'[i] == names[i] != n;
      }
    }
  }

  lemma {:induction false} ValuesAfterRecord(values: map<string, Value>, ids: map<Value, nat>, names: map<nat, string>, v: Value, id: nat, n: string,
                                             values': map<string, Value>, ids': map<Value, nat>, names': map<nat, string>)
    requires forall m :: m in values ==> values[m] in ids && values[m].ptr in names && names[values[m].ptr] == m
    requires v !in ids && v.ptr !in names
    requires ids' == ids[v := id] && values' == values[n := v] && names' == names[v.ptr := n]
    ensures forall m :: m in values' ==> values'[m] in ids' && values'[m].ptr in names' && names'[values'[m].ptr] == m
  {
    forall m | m in values'
      ensures values'[m] in ids' && values'[m].ptr in names' && names'[values'[m].ptr] == m
    {
      if m != n {
        assert values[m] != v;
      }
    }
  }

  /** The ids already handed out leave the next one's name free. */
  lemma {:induction false} FreshName(values: map<string, Value>, ids: map<Value, nat>, names: map<nat, string>, v: Value, id: nat)
    requires forall u :: u in ids ==> ids[u] < id && u.ptr in names && names[u.ptr] == SymbolName(u, ids[u])
    requires forall n :: n in values ==> values[n] in ids && values[n].ptr in names && names[values[n].ptr] == n
    ensures SymbolName(v, id) !in values
  {
    if SymbolName(v, id) in values {
      var w := values[SymbolName(v, id)];
      NameDeterminesId(BaseName(v), id, BaseName(w), ids[w]);
    }
  }
}
