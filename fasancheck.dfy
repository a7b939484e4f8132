/**
 * The FASan runtime range check `__fasan_check(Ary, Start, End, Reuse)`.
 * The shadow-memory query `__fasan_verify` is a parameter; addresses are
 * integers (the array base plus a byte offset).
 */
module FasanCheck {
  /** Probe stride of the check, in bytes. */
  const Stride: int := 4

  /** The byte offsets the check probes: `start`, `start + 4`, ... strictly below `end`. */
  function Probes(start: int, end: int): seq<int>
    decreases end - start
  {
    if start >= end then [] else [start] + Probes(start + Stride, end)
  }

  /** An offset is probed iff it lies in [start, end) on the 4-byte grid from `start`. */
  lemma {:induction false} ProbesExact(start: int, end: int, x: int)
    ensures x in Probes(start, end) <==> start <= x < end && (x - start) % Stride == 0
    decreases end - start
  {
    if start < end {
      ProbesExact(start + Stride, end, x);
      assert Probes(start, end) == [start] + Probes(start + Stride, end);
      if x != start && start <= x {
        assert (x - start) % Stride == 0 <==> (x - (start + Stride)) % Stride == 0;
      }
    }
  }

  /** Number of probes; there are none when `start >= end`. */
  lemma {:induction false} ProbesLength(start: int, end: int)
    ensures start >= end ==> Probes(start, end) == []
    ensures start < end ==> |Probes(start, end)| == (end - start + Stride - 1) / Stride
    decreases end - start
  {
    if start < end {
      ProbesLength(start + Stride, end);
    }
  }

  /** `verify` answers false at every probed address. */
  predicate AllClear(ary: int, probes: seq<int>, verify: int -> bool) {
    forall k :: 0 <= k < |probes| ==> !verify(ary + probes[k])
  }

  /**
   * The probe loop: it stops with false at the first probed address where
   * `verify` holds, and answers true when there is none; in particular it
   * answers true without probing when `start >= end`.
   */
  method Check(ary: int, start: int, end: int, verify: int -> bool) returns (ok: bool)
    ensures ok == AllClear(ary, Probes(start, end), verify)
    ensures start >= end ==> ok
  {
    ghost var probes := Probes(start, end);
    var i := start;
    ghost var k := 0;
    while i < end
      invariant 0 <= k <= |probes| && i == start + Stride * k
      invariant AllClear(ary, probes[..k], verify)
      decreases end - i
    {
      ProbeAt(start, end, k);
      if verify(ary + i) {
        assert probes[k] == i;
        return false;
      }
      assert probes[..k + 1] == probes[..k] + [i];
      i := i + Stride;
      k := k + 1;
    }
    ProbeAt(start, end, k);
    assert probes[..k] == probes;
    return true;
  }

  /** The `k`-th probe is `start + 4k`, and it exists iff that offset is below `end`. */
  lemma {:induction false} ProbeAt(start: int, end: int, k: nat)
    ensures k < |Probes(start, end)| <==> start + Stride * k < end
    ensures k < |Probes(start, end)| ==> Probes(start, end)[k] == start + Stride * k
    decreases end - start
  {
    if start < end && k > 0 {
      ProbeAt(start + Stride, end, k - 1);
    }
  }

  /** The offset of the `k`-th probe. */
  function ProbeOffset(start: int, k: nat): int { start + Stride * k }

  /**
   * What `Check` answers, in terms of addresses: true iff `verify` is false at
   * `ary + start + 4k` for every `k` whose offset is below `end`.
   */
  lemma {:induction false} AllClearMeaning(ary: int, start: int, end: int, verify: int -> bool)
    ensures AllClear(ary, Probes(start, end), verify) <==>
      forall k: nat :: ProbeOffset(start, k) < end ==> !verify(ary + ProbeOffset(start, k))
  {
    var probes := Probes(start, end);
    if AllClear(ary, probes, verify) {
      forall k: nat | ProbeOffset(start, k) < end
        ensures !verify(ary + ProbeOffset(start, k))
      {
        ProbeAt(start, end, k);
      }
    } else {
      var k :| 0 <= k < |probes| && verify(ary + probes[k]);
      ProbeAt(start, end, k);
      assert ProbeOffset(start, k) < end && verify(ary + ProbeOffset(start, k));
    }
  }
}
