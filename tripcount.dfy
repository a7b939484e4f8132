/**
 * The trip-count generator and profiler passes: which block controls a
 * loop, the estimate |Op1 - Op2| (+1) they build in the loop's entry block,
 * how loops are classified, when the estimate is unknown, and how the
 * instrumented counter and report behave at run time.  Operands are bit
 * patterns of their LLVM width; blocks are of an unspecified type `B`.
 */
module TripCount {
  import opened Wrappers
  import opened Bits
  import opened Ir
  import TcProfiler

  // ---------------------------------------------------------------------
  // The controller block
  // ---------------------------------------------------------------------

  /**
   * Position of the first exiting block that has the header as a successor
   * (`|exiting|` when there is none).
   */
  function FirstLatchingExit<B(==)>(exiting: seq<B>, header: B, succs: B -> seq<B>): (i: nat)
    ensures i <= |exiting|
    ensures i < |exiting| ==> header in succs(exiting[i])
    ensures forall j :: 0 <= j < i ==> header !in succs(exiting[j])
  {
    if exiting == [] then 0
    else if header in succs(exiting[0]) then 0
    else 1 + FirstLatchingExit(exiting[1..], header, succs)
  }

  /**
   * The block that most likely controls the loop: the header when it exits
   * the loop (for and while loops), else the first exiting block that
   * branches back to the header (do-while loops), else the first exiting
   * block.  A loop without exiting blocks has none.
   */
  function ControllerBlock<B(==)>(exiting: seq<B>, header: B, succs: B -> seq<B>): (r: Option<B>)
    ensures r.Some? <==> exiting != []
    ensures r.Some? ==> r.value in exiting
    ensures header in exiting ==> r == Some(header)
    ensures header !in exiting && (exists b :: b in exiting && header in succs(b)) ==>
      header in succs(r.value)
  {
    if header in exiting then Some(header)
    else if exiting == [] then None
    else
      var i := FirstLatchingExit(exiting, header, succs);
      if i < |exiting| then Some(exiting[i]) else Some(exiting[0])
  }

  /**
   * `findLoopControllerBlock`: one pass over the exiting blocks looking for
   * the header, then a pass looking through each block's successors for it.
   * Without exiting blocks the source dereferences an empty vector; the
   * model answers None there, which the passes treat as "exit block not found".
   */
  method FindLoopControllerBlock<B(==)>(exiting: seq<B>, header: B, succs: B -> seq<B>) returns (r: Option<B>)
    ensures r == ControllerBlock(exiting, header, succs)
  {
    for i := 0 to |exiting|
      invariant header !in exiting[..i]
    {
      if exiting[i] == header {
        return Some(header);
      }
    }
    assert exiting[..|exiting|] == exiting;
    for i := 0 to |exiting|
      invariant forall j :: 0 <= j < i ==> header !in succs(exiting[j])
    {
      var found := BranchesTo(succs(exiting[i]), header);
      if found {
        FirstLatchingExitIs(exiting, header, succs, i);
        return Some(exiting[i]);
      }
    }
    FirstLatchingExitIs(exiting, header, succs, |exiting|);
    if exiting == [] {
      return None;
    }
    return Some(exiting[0]);
  }

  /** The successor loop: does `header` occur among `succs`? */
  method BranchesTo<B(==)>(succs: seq<B>, header: B) returns (found: bool)
    ensures found <==> header in succs
  {
    for k := 0 to |succs|
      invariant header !in succs[..k]
    {
      if succs[k] == header {
        return true;
      }
    }
    assert succs[..|succs|] == succs;
    return false;
  }

  /** The first latching exit is the unique position where the search stops. */
  lemma {:induction false} FirstLatchingExitIs<B>(exiting: seq<B>, header: B, succs: B -> seq<B>, i: nat)
    requires i <= |exiting| && forall j :: 0 <= j < i ==> header !in succs(exiting[j])
    requires i < |exiting| ==> header in succs(exiting[i])
    ensures FirstLatchingExit(exiting, header, succs) == i
    decreases i
  {
    if exiting != [] && i > 0 {
      FirstLatchingExitIs(exiting[1..], header, succs, i - 1);
    }
  }

  // ---------------------------------------------------------------------
  // The estimate
  // ---------------------------------------------------------------------

  /** Width of the estimate and of the trip counter. */
  const CounterWidth: nat := 64

  /** An integer operand: a bit pattern and its width (at most 64, as the final extension to i64 needs). */
  datatype Operand = Operand(bits: int, width: nat)

  predicate WellFormed(o: Operand) {
    1 <= o.width <= CounterWidth && Fits(o.bits, o.width)
  }

  /** The operand's value, read with the signedness of the comparison. */
  function Reading(o: Operand, signed: bool): int
    requires WellFormed(o)
  {
    if signed then ToSigned(o.bits, o.width) else o.bits
  }

  /** An operand extended to width `w`: sign-extended for a signed comparison, else zero-extended. */
  function Widen(o: Operand, w: nat, signed: bool): (r: Operand)
    requires WellFormed(o) && o.width <= w <= CounterWidth
    ensures WellFormed(r) && r.width == w
    ensures Reading(r, signed) == Reading(o, signed)
  {
    if o.width == w then o
    else if signed then Operand(Sext(o.bits, o.width, w), w)
    else Operand(Zext(o.bits, o.width, w), w)
  }

  /**
   * The larger operand (by the comparison's signedness) less the smaller
   * one, as a pattern of their common width.
   */
  function Difference(a: Operand, b: Operand, signed: bool): (r: int)
    requires WellFormed(a) && WellFormed(b) && a.width == b.width
    ensures Fits(r, a.width)
  {
    if Reading(a, signed) > Reading(b, signed) then Wrap(a.bits - b.bits, a.width) else Wrap(b.bits - a.bits, a.width)
  }

  /** The difference extended to 64 bits (`SExtOrBitCast` or `ZExtOrBitCast`). */
  function ToCounterWidth(sub: int, w: nat, signed: bool): (r: int)
    requires 1 <= w <= CounterWidth && Fits(sub, w)
    ensures Fits(r, CounterWidth)
  {
    if signed then Sext(sub, w, CounterWidth) else Zext(sub, w, CounterWidth)
  }

  /**
   * The estimate built in the entry block: the narrower operand is widened,
   * the larger operand (by a signed or an unsigned comparison, after the
   * predicate) less the smaller one is extended to 64 bits, and one is added
   * for the inclusive predicates.  The result is a 64-bit pattern.
   */
  function Estimate(op1: Operand, op2: Operand, p: Predicate): (r: int)
    requires WellFormed(op1) && WellFormed(op2)
    ensures Fits(r, CounterWidth)
  {
    var signed := IsSignedPredicate(p);
    var w := CommonWidth(op1, op2);
    var ext := ToCounterWidth(Difference(Widen(op1, w, signed), Widen(op2, w, signed), signed), w, signed);
    if IsInclusive(p) then Wrap(ext + 1, CounterWidth) else ext
  }

  function Abs(x: int): nat { if x < 0 then -x else x }

  /** Width of the comparison after widening. */
  function CommonWidth(op1: Operand, op2: Operand): nat {
    if op1.width > op2.width then op1.width else op2.width
  }

  /** Unsigned, the difference is the distance of the patterns. */
  lemma {:induction false} UnsignedDifference(a: Operand, b: Operand)
    requires WellFormed(a) && WellFormed(b) && a.width == b.width
    ensures Difference(a, b, false) == Abs(a.bits - b.bits)
  {
  }

  /**
   * Signed, the difference is the distance of the readings when that fits
   * the signed range.
   */
  lemma {:induction false} SignedDifference(a: Operand, b: Operand)
    requires WellFormed(a) && WellFormed(b) && a.width == b.width
    requires Abs(Reading(a, true) - Reading(b, true)) < Pow2(a.width - 1)
    ensures Difference(a, b, true) == Abs(Reading(a, true) - Reading(b, true))
  {
    assert Pow2(a.width) == 2 * Pow2(a.width - 1);
  }

  /** Extending a non-negative difference to 64 bits keeps it. */
  lemma {:induction false} ToCounterWidthKeeps(sub: int, w: nat, signed: bool)
    requires 1 <= w <= CounterWidth && Fits(sub, w)
    requires signed ==> sub < Pow2(w - 1)
    ensures ToCounterWidth(sub, w, signed) == sub
  {
    if signed {
      Pow2Monotone(w - 1, CounterWidth - 1);
      assert ToSigned(sub, w) == sub;
      var r := Sext(sub, w, CounterWidth);
      assert ToSigned(r, CounterWidth) == sub;
    }
  }

  /**
   * The estimate is the distance between the operands' values, plus one for
   * the inclusive predicates, as a 64-bit pattern.  For an unsigned
   * comparison this always holds; for a signed one it holds when the
   * distance fits the signed range of the common width (otherwise the
   * no-signed-wrap subtraction overflows).
   */
  lemma {:induction false} EstimateMeaning(op1: Operand, op2: Operand, p: Predicate)
    requires WellFormed(op1) && WellFormed(op2)
    requires IsSignedPredicate(p) ==>
      Abs(Reading(op1, true) - Reading(op2, true)) < Pow2(CommonWidth(op1, op2) - 1)
    ensures Estimate(op1, op2, p) ==
      Wrap(Distance(op1, op2, IsSignedPredicate(p)) + (if IsInclusive(p) then 1 else 0), CounterWidth)
  {
    var signed := IsSignedPredicate(p);
    var w := CommonWidth(op1, op2);
    ExtendedDifference(op1, op2, signed);
    var ext := ToCounterWidth(Difference(Widen(op1, w, signed), Widen(op2, w, signed), signed), w, signed);
    assert ext == Distance(op1, op2, signed);
  }

  /** The widened difference, extended to 64 bits, is the distance of the readings. */
  lemma {:induction false} ExtendedDifference(op1: Operand, op2: Operand, signed: bool)
    requires WellFormed(op1) && WellFormed(op2)
    requires signed ==> Distance(op1, op2, true) < Pow2(CommonWidth(op1, op2) - 1)
    ensures ToCounterWidth(Difference(Widen(op1, CommonWidth(op1, op2), signed), Widen(op2, CommonWidth(op1, op2), signed), signed),
                           CommonWidth(op1, op2), signed) == Distance(op1, op2, signed)
  {
    var w := CommonWidth(op1, op2);
    var a := Widen(op1, w, signed);
    var b := Widen(op2, w, signed);
    var d := Distance(op1, op2, signed);
    assert d == Abs(Reading(a, signed) - Reading(b, signed));
    if signed {
      SignedDifference(a, b);
    } else {
      UnsignedDifference(a, b);
    }
    ToCounterWidthKeeps(d, w, signed);
  }

  /** The distance of the operands' readings. */
  function Distance(op1: Operand, op2: Operand, signed: bool): nat
    requires WellFormed(op1) && WellFormed(op2)
  {
    Abs(Reading(op1, signed) - Reading(op2, signed))
  }

  /** An estimate of operands narrower than 64 bits never collides with the unknown marker. */
  lemma {:induction false} EstimateIsNotUnknown(op1: Operand, op2: Operand, p: Predicate)
    requires WellFormed(op1) && WellFormed(op2) && CommonWidth(op1, op2) < CounterWidth
    requires IsSignedPredicate(p) ==>
      Abs(Reading(op1, true) - Reading(op2, true)) < Pow2(CommonWidth(op1, op2) - 1)
    ensures Estimate(op1, op2, p) != UnknownTripCount
    ensures CommonWidth(op1, op2) < CounterWidth - 1 ==>
      ToSigned(Estimate(op1, op2, p), CounterWidth) == Distance(op1, op2, IsSignedPredicate(p)) + (if IsInclusive(p) then 1 else 0)
  {
    var signed := IsSignedPredicate(p);
    EstimateMeaning(op1, op2, p);
    DistanceBound(op1, op2, signed);
    SmallCount(Distance(op1, op2, signed) + (if IsInclusive(p) then 1 else 0), CommonWidth(op1, op2));
  }

  /** The distance of two operands is below 2^w for their common width w. */
  lemma {:induction false} DistanceBound(op1: Operand, op2: Operand, signed: bool)
    requires WellFormed(op1) && WellFormed(op2)
    ensures Distance(op1, op2, signed) < Pow2(CommonWidth(op1, op2))
  {
    var w := CommonWidth(op1, op2);
    Pow2Monotone(op1.width, w);
    Pow2Monotone(op2.width, w);
    Pow2Monotone(op1.width - 1, w - 1);
    Pow2Monotone(op2.width - 1, w - 1);
    assert Pow2(w) == 2 * Pow2(w - 1);
  }

  /**
   * A count of at most 2^w, for w < 64, is its own 64-bit pattern and not the
   * marker; for w < 63 the runtime also reads it as itself.
   */
  lemma {:induction false} SmallCount(x: int, w: nat)
    requires 0 <= x <= Pow2(w) && w < CounterWidth
    ensures Wrap(x, CounterWidth) == x && x != UnknownTripCount
    ensures w < CounterWidth - 1 ==> ToSigned(x, CounterWidth) == x
  {
    Pow2Monotone(w, CounterWidth - 1);
    assert Pow2(CounterWidth) == 2 * Pow2(CounterWidth - 1);
    Pow2Monotone(2, CounterWidth - 1);
    if w < CounterWidth - 1 {
      Pow2Monotone(w + 1, CounterWidth - 1);
      assert Pow2(w + 1) == 2 * Pow2(w);
    }
  }

  // ---------------------------------------------------------------------
  // Classification and unknown trip counts
  // ---------------------------------------------------------------------

  /** The controller block's terminator: a branch on an `icmp`, or anything else. */
  datatype Condition = Other | Compare(pred: Predicate)

  /** The profiler's loop class: 0 for order comparisons, 1 for other comparisons, 2 without one. */
  function LoopClass(c: Condition): (k: int)
    ensures 0 <= k <= 2
    ensures k == 2 <==> c.Other?
    ensures k == 0 <==> c.Compare? && IsOrdered(c.pred)
  {
    match c
    case Other => 2
    case Compare(p) => if IsOrdered(p) then 0 else 1
  }

  /** An LLVM type, as far as comparing two values' types needs it: an integer type of some width, or another type. */
  datatype Type = IntType(width: nat) | OtherType(id: nat)

  /** An operand's value at the loop's entry point: an integer operand, or a value of another type. */
  datatype EntryValue = IntValue(op: Operand) | NonInteger(id: nat)

  function EntryType(v: EntryValue): Type {
    match v
    case IntValue(op) => IntType(op.width)
    case NonInteger(id) => OtherType(id)
  }

  predicate ValidEntry(v: Option<EntryValue>) {
    v.Some? && v.value.IntValue? ==> WellFormed(v.value.op)
  }

  /**
   * The estimate when it is known: the condition is an `icmp`, both operands
   * have a value at the entry point (None when `getValueAtEntryPoint` fails)
   * and both are integers.
   */
  function KnownEstimate(c: Condition, op1: Option<EntryValue>, op2: Option<EntryValue>): (r: Option<int>)
    requires ValidEntry(op1) && ValidEntry(op2)
    ensures r.Some? <==>
      c.Compare? && op1.Some? && op2.Some? && op1.value.IntValue? && op2.value.IntValue?
    ensures r.Some? ==> r.value == Estimate(op1.value.op, op2.value.op, c.pred)
  {
    if c.Compare? && op1.Some? && op2.Some? && op1.value.IntValue? && op2.value.IntValue? then
      Some(Estimate(op1.value.op, op2.value.op, c.pred))
    else None
  }

  /** The profiler's marker for an unknown estimate: the 64-bit pattern of -2. */
  const UnknownTripCount: int := Wrap(-2, CounterWidth)

  /** The estimate the profiler reports: the known one, or the marker. */
  function ProfiledEstimate(c: Condition, op1: Option<EntryValue>, op2: Option<EntryValue>): (r: int)
    requires ValidEntry(op1) && ValidEntry(op2)
    ensures Fits(r, CounterWidth)
    ensures KnownEstimate(c, op1, op2).None? ==> r == UnknownTripCount
    ensures KnownEstimate(c, op1, op2).Some? ==> r == KnownEstimate(c, op1, op2).value
  {
    match KnownEstimate(c, op1, op2)
    case None => UnknownTripCount
    case Some(e) => e
  }

  /**
   * The runtime reads the marker as -2, so a loop with an unknown estimate
   * is never counted accurate for a trip count it can have.
   */
  lemma {:induction false} UnknownNeverAccurate(tripCount: int)
    requires 0 <= tripCount
    ensures ToSigned(UnknownTripCount, CounterWidth) == -2
    ensures !TcProfiler.IsAccurate(tripCount, ToSigned(UnknownTripCount, CounterWidth))
  {
    assert Pow2(CounterWidth) >= 4 by { Pow2Monotone(2, CounterWidth); }
    ToSignedWrap(-2, CounterWidth);
  }

  // ---------------------------------------------------------------------
  // getValueAtEntryPoint
  // ---------------------------------------------------------------------

  /**
   * A compare operand as the resolution of its value at the loop entry sees
   * it: a loop-invariant value, a cast to a type, a load or a GEP inside the
   * loop (with the entry value a copy in the entry block would be), or
   * anything else, of some type.
   */
  datatype LoopValue =
    | Invariant(entry: EntryValue)
    | Cast(operand: LoopValue, ty: Type)
    | Load(operands: seq<LoopValue>, copy: EntryValue)
    | Gep(operands: seq<LoopValue>, copy: EntryValue)
    | OtherValue(ty: Type)

  /** The value's own type; a copied load or GEP has the copy's type. */
  function TypeOf(v: LoopValue): Type {
    match v
    case Invariant(e) => EntryType(e)
    case Cast(_, ty) => ty
    case Load(_, copy) => EntryType(copy)
    case Gep(_, copy) => EntryType(copy)
    case OtherValue(ty) => ty
  }

  /** What the dependence graph knows of a value. */
  datatype GraphAnswer =
    | NotInGraph
    | HeaderPhiIncoming(incoming: EntryValue)  // its SCC holds a header phi: its incoming value from the entry block
    | NoHeaderPhi

  /**
   * `getValueAtEntryPoint`: an invariant value is itself; a value absent from
   * the dependence graph has none; a value in an SCC with a header phi has
   * that phi's incoming value from the entry block; otherwise a cast is
   * resolved through its operand, and a load (or a GEP whose operands are
   * all invariant) is copied into the entry block when every operand
   * resolves to a value of the operand's own type (an invariant operand is
   * itself, so a GEP's operands always do).
   */
  function ValueAtEntry(v: LoopValue, graph: LoopValue -> GraphAnswer): (r: Option<EntryValue>)
    ensures v.Invariant? ==> r == Some(v.entry)
    ensures r.Some? && !v.Invariant? ==> graph(v) != NotInGraph
    ensures v.OtherValue? && r.Some? ==> graph(v).HeaderPhiIncoming?
  {
    if v.Invariant? then Some(v.entry)
    else match graph(v)
      case NotInGraph => None
      case HeaderPhiIncoming(e) => Some(e)
      case NoHeaderPhi =>
        match v
        case Cast(x, _) => ValueAtEntry(x, graph)
        case Load(ops, copy) =>
          if forall i | 0 <= i < |ops| ::
               ValueAtEntry(ops[i], graph).Some? && EntryType(ValueAtEntry(ops[i], graph).value) == TypeOf(ops[i])
          then Some(copy) else None
        case Gep(ops, copy) =>
          if (forall i | 0 <= i < |ops| :: ops[i].Invariant?) then Some(copy) else None
        case OtherValue(_) => None
  }

  /**
   * A load through a cast of an invariant value `x`: the cast resolves to
   * `x` itself, so the load is copied exactly when the cast does not change
   * the type.
   */
  lemma {:induction false} LoadThroughCast(x: EntryValue, ty: Type, copy: EntryValue, graph: LoopValue -> GraphAnswer)
    requires graph(Load([Cast(Invariant(x), ty)], copy)) == NoHeaderPhi && graph(Cast(Invariant(x), ty)) == NoHeaderPhi
    ensures ValueAtEntry(Load([Cast(Invariant(x), ty)], copy), graph) == if ty == EntryType(x) then Some(copy) else None
  {
    var c := Cast(Invariant(x), ty);
    assert ValueAtEntry(c, graph) == Some(x) && TypeOf(c) == ty;
    if ty != EntryType(x) {
      assert [c][0] == c;
    }
  }

  // ---------------------------------------------------------------------
  // The instrumented counter
  // ---------------------------------------------------------------------

  /** Occurrences of `b` in `trace`. */
  function Occurrences<B(==)>(trace: seq<B>, b: B): nat {
    if trace == [] then 0
    else Occurrences(trace[..|trace| - 1], b) + (if trace[|trace| - 1] == b then 1 else 0)
  }

  /** Header executions since the entry block last ran (since the start when it has not run). */
  function RunsSinceEntry<B(==)>(trace: seq<B>, entry: B, header: B): nat {
    if trace == [] then 0
    else if trace[|trace| - 1] == entry then 0
    else RunsSinceEntry(trace[..|trace| - 1], entry, header) + (if trace[|trace| - 1] == header then 1 else 0)
  }

  /**
   * The counter of `insertAlloca`/`insertAdd` along an execution trace: the
   * entry block stores 0, each execution of the header adds 1 (in 64 bits).
   * The counter's value before the entry block first runs is taken as 0.
   */
  method RunCounter<B(==)>(trace: seq<B>, entry: B, header: B) returns (counter: int)
    requires entry != header
    ensures counter == Wrap(RunsSinceEntry(trace, entry, header), CounterWidth)
  {
    counter := 0;
    for i := 0 to |trace|
      invariant counter == Wrap(RunsSinceEntry(trace[..i], entry, header), CounterWidth)
    {
      assert trace[..i + 1][..i] == trace[..i];
      if trace[i] == entry {
        counter := 0;
      } else if trace[i] == header {
        WrapSucc(RunsSinceEntry(trace[..i], entry, header), CounterWidth);
        counter := Wrap(counter + 1, CounterWidth);
      }
    }
    assert trace[..|trace|] == trace;
  }

  lemma {:induction false} WrapSucc(n: nat, w: nat)
    ensures Wrap(Wrap(n, w) + 1, w) == Wrap(n + 1, w)
  {
    var m := Pow2(w);
    var q := n / m;
    var r := n % m;
    assert n == m * q + r;
    if r + 1 < m {
      ModUnique(n + 1, m, q, r + 1);
      ModUnique(r + 1, m, 0, r + 1);
    } else {
      assert n + 1 == m * (q + 1) + 0;
      ModUnique(n + 1, m, q + 1, 0);
      ModUnique(r + 1, m, 1, 0);
    }
  }

  /** After the last run of the entry block, the counter holds the number of header executions. */
  lemma {:induction false} RunsAfterEntry<B>(before: seq<B>, entry: B, header: B, after: seq<B>)
    requires entry !in after
    ensures RunsSinceEntry(before + [entry] + after, entry, header) == Occurrences(after, header)
    decreases |after|
  {
    var t := before + [entry] + after;
    if after == [] {
      assert t[|t| - 1] == entry;
    } else {
      var init := after[..|after| - 1];
      assert t[..|t| - 1] == before + [entry] + init;
      RunsAfterEntry(before, entry, header, init);
    }
  }

  // ---------------------------------------------------------------------
  // The report at the loop's exits
  // ---------------------------------------------------------------------

  /** The exit blocks that report: all of them but landing pads. */
  method BlocksToInstrument<B(==)>(exitBlocks: seq<B>, isLandingPad: B -> bool) returns (s: set<B>)
    ensures s == set b | b in exitBlocks && !isLandingPad(b)
  {
    s := {};
    for i := 0 to |exitBlocks|
      invariant s == set b | b in exitBlocks[..i] && !isLandingPad(b)
    {
      assert exitBlocks[..i + 1] == exitBlocks[..i] + [exitBlocks[i]];
      if !isLandingPad(exitBlocks[i]) {
        s := s + {exitBlocks[i]};
      }
    }
    assert exitBlocks[..|exitBlocks|] == exitBlocks;
  }

  /**
   * `saveTripCount` at run time: reaching an instrumented exit block passes
   * the loop's header ID, the counter and the estimate (both read as signed
   * 64-bit integers) and the loop class to `collectLoopData`.
   */
  method ReportAtExit(list: TcProfiler.LoopList, instrumented: set<int>, block: int,
                      headerId: int, counter: int, estimate: int, cls: int) returns (ghost k: nat)
    requires list.Valid() && Fits(counter, CounterWidth) && Fits(estimate, CounterWidth)
    modifies list, list.nodes
    ensures list.Valid()
    ensures block !in instrumented ==> list.nodes == old(list.nodes) && list.View() == old(list.View())
    ensures block in instrumented ==> k <= |old(list.nodes)| && k < |list.nodes|
    ensures block in instrumented ==> forall i :: 0 <= i < k ==> list.nodes[i].id != headerId
    ensures block in instrumented ==>
      list.nodes == old(list.nodes) || (k == |old(list.nodes)| && list.nodes[..k] == old(list.nodes))
    ensures block in instrumented ==>
      forall i :: 0 <= i < |old(list.nodes)| && i != k ==> list.nodes[i].View() == old(list.nodes[i].View())
    ensures block in instrumented ==>
      list.nodes[k].id == headerId && (k < |old(list.nodes)| ==> old(list.nodes[k].id) == headerId)
    ensures block in instrumented ==>
      list.nodes[k].loopClass == (if k < |old(list.nodes)| then old(list.nodes[k].loopClass) else cls)
    ensures block in instrumented ==>
      list.nodes[k].numInstances == (if k < |old(list.nodes)| then old(list.nodes[k].numInstances) else 0) + 1
    ensures block in instrumented ==>
      list.nodes[k].accurate == (if k < |old(list.nodes)| then old(list.nodes[k].accurate) else 0) +
        (if TcProfiler.IsAccurate(ToSigned(counter, CounterWidth), ToSigned(estimate, CounterWidth)) then 1 else 0)
  {
    k := 0;
    if block in instrumented {
      k := list.CollectLoopData(headerId, ToSigned(counter, CounterWidth), ToSigned(estimate, CounterWidth), cls);
    }
  }
}
