/**
 * Choosing and building the affinity mask: the core-count clamp of
 * CPUAffinity::onButtonApply, the processor count of totalLogicalProcessors, and
 * the mask arithmetic of the two PowerShell scripts (building the mask by OR-ing
 * one bit per chosen core, and counting the bits below the processor count).
 */
module Affinity {
  import opened Wrappers
  import opened Decimal
  import opened Text

  /** The processor count used when neither the OS nor the fallback query yields one. */
  const FallbackProcessors: int := 4

  /**
   * CPUAffinity::totalLogicalProcessors. `idealThreadCount` is what the OS reports;
   * `fallbackOutput` is the fallback query's standard output when it finished in time
   * (it is only run on Windows).
   */
  function TotalLogicalProcessors(idealThreadCount: int, isWindows: bool, fallbackOutput: Option<string>): (n: int)
    ensures n >= 1
    ensures idealThreadCount > 0 ==> n == idealThreadCount
    ensures idealThreadCount <= 0 && (!isWindows || fallbackOutput.None?) ==> n == FallbackProcessors
    ensures idealThreadCount <= 0 && isWindows && fallbackOutput.Some? ==>
      match ParseInt32(Trim(fallbackOutput.value))
      case Some(v) => n == (if v > 0 then v else FallbackProcessors)
      case None => n == FallbackProcessors
  {
    if idealThreadCount > 0 then idealThreadCount
    else if isWindows && fallbackOutput.Some? then
      match ParseInt32(Trim(fallbackOutput.value))
      case Some(v) => if v > 0 then v else FallbackProcessors
      case None => FallbackProcessors
    else FallbackProcessors
  }

  /** The requested core count forced into [1, total]: too few become 1, too many become total. */
  function ClampCores(requested: int, total: int): (k: int)
    requires total >= 1
    ensures 1 <= k <= total
    ensures 1 <= requested <= total ==> k == requested
    ensures requested < 1 ==> k == 1
    ensures requested > total ==> k == total
  {
    var k := if requested < 1 then 1 else requested;
    if k > total then total else k
  }

  // ---------- bits of a non-negative integer ----------

  function Pow2(i: nat): (p: nat)
    ensures p >= 1
  {
    if i == 0 then 1 else 2 * Pow2(i - 1)
  }

  /** Whether bit `i` of `m` is set: the scripts' bitwise test against a one-bit mask. */
  predicate Has(m: nat, i: nat)
    decreases i
  {
    if i == 0 then m % 2 == 1 else Has(m / 2, i - 1)
  }

  /** Powers of two grow with the exponent. */
  lemma {:induction false} Pow2Grows(i: nat, j: nat)
    requires i < j
    ensures Pow2(i) < Pow2(j)
    decreases j
  {
    if i < j - 1 {
      Pow2Grows(i, j - 1);
    }
  }

  /** A set bit `i` makes the value at least `2^i`. */
  lemma {:induction false} HasBound(m: nat, i: nat)
    requires Has(m, i)
    ensures m >= Pow2(i)
    decreases i
  {
    if i > 0 {
      HasBound(m / 2, i - 1);
    }
  }

  /** The mask `m` with bit `i` OR-ed in. */
  function OrBit(m: nat, i: nat): (r: nat)
    ensures Has(r, i) && r > 0
    ensures m <= r <= m + Pow2(i)
  {
    if Has(m, i) then HasBound(m, i); m else AddClearBit(m, i, i); m + Pow2(i)
  }

  /** Adding a power of two whose bit is clear sets exactly that bit. */
  lemma {:induction false} AddClearBit(m: nat, i: nat, j: nat)
    requires !Has(m, i)
    ensures Has(m + Pow2(i), j) <==> Has(m, j) || i == j
    decreases i
  {
    if i == 0 {
      if j > 0 {
        assert (m + 1) / 2 == m / 2;
      }
    } else {
      if j > 0 {
        assert (m + Pow2(i)) / 2 == m / 2 + Pow2(i - 1);
        AddClearBit(m / 2, i - 1, j - 1);
      }
    }
  }

  /** OR-ing in bit `i` sets bit `i` and leaves every other bit as it was. */
  lemma OrBitHas(m: nat, i: nat, j: nat)
    ensures Has(OrBit(m, i), j) <==> Has(m, j) || i == j
  {
    if !Has(m, i) {
      AddClearBit(m, i, j);
    }
  }

  /** No bit of zero is set. */
  lemma {:induction false} ZeroHasNoBits(j: nat)
    ensures !Has(0, j)
    decreases j
  {
    if j > 0 {
      ZeroHasNoBits(j - 1);
    }
  }

  /** The mask `$mask` holds after the script's loop has OR-ed in every index of `sel`, in order. */
  function MaskOf(sel: seq<nat>): (r: nat)
    ensures r == 0 <==> sel == []
  {
    if sel == [] then 0 else OrBit(MaskOf(sel[..|sel| - 1]), sel[|sel| - 1])
  }

  /** The bits of the built mask are exactly the chosen indices. */
  lemma {:induction false} MaskOfHas(sel: seq<nat>, j: nat)
    ensures Has(MaskOf(sel), j) <==> j in sel
  {
    if sel == [] {
      ZeroHasNoBits(j);
    } else {
      var init := sel[..|sel| - 1];
      MaskOfHas(init, j);
      OrBitHas(MaskOf(init), sel[|sel| - 1], j);
      assert sel == init + [sel[|sel| - 1]];
    }
  }

  /** How many of bits 0 .. n-1 of `m` are set: the inspector script's `$assigned`. */
  function CountBelow(m: nat, n: nat): (c: nat)
    ensures c <= n
    ensures n > 0 && Has(m, n - 1) ==> c >= 1
  {
    if n == 0 then 0 else CountBelow(m, n - 1) + (if Has(m, n - 1) then 1 else 0)
  }

  /** Counting the bits below `n` counts the set of indices they stand for. */
  lemma {:induction false} CountBelowIsCardinality(m: nat, n: nat, s: set<nat>)
    requires forall j :: 0 <= j < n ==> (Has(m, j) <==> j in s)
    requires forall j :: j in s ==> j < n
    ensures CountBelow(m, n) == |s|
  {
    if n == 0 {
      assert s == {};
    } else {
      var rest := s - {n - 1};
      CountBelowIsCardinality(m, n - 1, rest);
    }
  }

  /** A pick of `k` distinct processor indices, each below `total`: what `Get-Random -Count k` returns. */
  predicate IsSelection(sel: seq<nat>, k: nat, total: nat) {
    && |sel| == k
    && (forall a, b :: 0 <= a < b < |sel| ==> sel[a] != sel[b])
    && (forall a :: 0 <= a < |sel| ==> sel[a] < total)
  }

  /** The indices a pick contains. */
  function Elements(sel: seq<nat>): set<nat> {
    set j | j in sel
  }

  /** The set of a sequence without repetitions is as large as the sequence. */
  lemma {:induction false} DistinctCardinality(sel: seq<nat>)
    requires forall a, b :: 0 <= a < b < |sel| ==> sel[a] != sel[b]
    ensures |Elements(sel)| == |sel|
  {
    if sel != [] {
      var init, x := sel[..|sel| - 1], sel[|sel| - 1];
      DistinctCardinality(init);
      var a := Elements(init);
      assert x !in init by {
        forall b | 0 <= b < |init| ensures init[b] != x {
          assert init[b] == sel[b];
        }
      }
      assert Elements(sel) == a + {x} by {
        assert sel == init + [x];
      }
    }
  }

  /**
   * The central property: OR-ing bit i in for each of `k` distinct indices below `total`
   * sets exactly `k` bits, all of them below `total`, so counting the bits below
   * `total` gives `k` back.
   */
  lemma PopcountOfSelection(sel: seq<nat>, k: nat, total: nat)
    requires IsSelection(sel, k, total)
    ensures CountBelow(MaskOf(sel), total) == k
    ensures forall j :: j >= total ==> !Has(MaskOf(sel), j)
  {
    var m := MaskOf(sel);
    var s := Elements(sel);
    forall j | 0 <= j < total
      ensures Has(m, j) <==> j in s
    {
      MaskOfHas(sel, j);
    }
    forall j | j >= total
      ensures !Has(m, j)
    {
      MaskOfHas(sel, j);
    }
    forall j | j in s
      ensures j < total
    {
      var a :| 0 <= a < |sel| && sel[a] == j;
    }
    CountBelowIsCardinality(m, total, s);
    DistinctCardinality(sel);
  }

  /** `Get-Random -Count k -InputObject (0..(total-1))`: some k distinct indices, chosen by the environment. */
  method PickIndices(k: nat, total: nat) returns (sel: seq<nat>)
    requires k <= total
    ensures IsSelection(sel, k, total)
  {
    var first := seq(k, i requires 0 <= i < k => i as nat);
    assert IsSelection(first, k, total);
    sel :| IsSelection(sel, k, total);
  }

  /**
   * The intended mask: bit i set for every i in `sel`, OR-ed in one index at a time,
   * as a 64-bit shift would give (cpuaffinity.cpp:378).
   */
  method BuildMask(sel: seq<nat>) returns (mask: nat)
    ensures mask == MaskOf(sel)
    ensures forall j :: Has(mask, j) <==> j in sel
  {
    mask := 0;
    for n := 0 to |sel|
      invariant mask == MaskOf(sel[..n])
    {
      assert sel[..n + 1][..n] == sel[..n];
      mask := OrBit(mask, sel[n]);
    }
    assert sel[..|sel|] == sel;
    forall j | true
      ensures Has(mask, j) <==> j in sel
    {
      MaskOfHas(sel, j);
    }
  }

  /**
   * How many of bits 0 .. total-1 of `mask` are set, tested one bit at a time with the
   * intended 64-bit test (cpuaffinity.cpp:154).
   */
  method CountAssigned(mask: nat, total: nat) returns (count: nat)
    ensures count == CountBelow(mask, total)
    ensures count <= total
  {
    count := 0;
    for i := 0 to total
      invariant count == CountBelow(mask, i) <= i
    {
      if Has(mask, i) {
        count := count + 1;
      }
    }
  }

  /**
   * The apply script: `$assign` lowered to `$total` when larger, `$assign` distinct
   * indices drawn at random, their bits OR-ed into the mask. The mask sets exactly
   * `min(assign, total)` bits, none at or above `total`.
   */
  method AffinityScript(assign: int, total: nat) returns (mask: nat)
    requires 1 <= assign
    ensures var k := if assign > total then total else assign;
      CountBelow(mask, total) == k && forall j :: j >= total ==> !Has(mask, j)
  {
    var k := if assign > total then total else assign;
    var sel := PickIndices(k, total);
    mask := BuildMask(sel);
    PopcountOfSelection(sel, k, total);
  }

  /**
   * Apply followed by inspection: the inspector's bit count of the mask the apply
   * script built for the clamped request is that clamped request.
   */
  method ApplyThenInspect(requested: int, total: int) returns (k: int, mask: nat, count: nat)
    requires total >= 1
    ensures 1 <= k <= total && k == ClampCores(requested, total)
    ensures count == k
    ensures forall j :: j >= total ==> !Has(mask, j)
  {
    k := ClampCores(requested, total);
    mask := AffinityScript(k, total);
    count := CountAssigned(mask, total);
  }

  // ---------- the scripts as written: 32-bit shifts ----------

  /**
   * In both scripts the shifted one and the index are 32-bit integers, and a 32-bit shift
   * uses only the low five bits of its count, so index i sets bit `i % 32`. This is the
   * 32-bit pattern the apply script's mask holds after its loop (cpuaffinity.cpp:378).
   */
  function ScriptMaskAsWritten(sel: seq<nat>): (r: nat)
    ensures r == 0 <==> sel == []
  {
    if sel == [] then 0 else OrBit(ScriptMaskAsWritten(sel[..|sel| - 1]), sel[|sel| - 1] % 32)
  }

  /** The pattern is a 32-bit value: below `2^32`. */
  lemma {:induction false} ScriptMaskBelow(sel: seq<nat>)
    ensures ScriptMaskAsWritten(sel) < Pow2(32)
  {
    if sel != [] {
      ScriptMaskBelow(sel[..|sel| - 1]);
      OrBitBelow(ScriptMaskAsWritten(sel[..|sel| - 1]), sel[|sel| - 1] % 32, 32);
    }
  }

  /** OR-ing a bit below `n` into a value below `2^n` stays below `2^n`. */
  lemma {:induction false} OrBitBelow(m: nat, i: nat, n: nat)
    requires m < Pow2(n) && i < n
    ensures OrBit(m, i) < Pow2(n)
    decreases i
  {
    if !Has(m, i) {
      if i == 0 {
        assert m % 2 == 0;
      } else {
        OrBitBelow(m / 2, i - 1, n - 1);
        assert !Has(m / 2, i - 1);
        assert (m + Pow2(i)) / 2 == m / 2 + Pow2(i - 1);
      }
    }
  }

  /** A mask built from indices all below `n` is below `2^n`. */
  lemma {:induction false} MaskOfBelow(sel: seq<nat>, n: nat)
    requires forall a :: 0 <= a < |sel| ==> sel[a] < n
    ensures MaskOf(sel) < Pow2(n)
  {
    if sel != [] {
      MaskOfBelow(sel[..|sel| - 1], n);
      OrBitBelow(MaskOf(sel[..|sel| - 1]), sel[|sel| - 1], n);
    }
  }

  /**
   * A `w`-bit two's-complement pattern widened to `2w` bits: when its sign bit `w - 1`
   * is set, bits `w` to `2w - 1` are set as well.
   */
  function SignExtend(p: nat, w: nat): nat
    requires 1 <= w && p < Pow2(w)
  {
    if p < Pow2(w - 1) then p else p + Pow2(w) * (Pow2(w) - 1)
  }

  /** The `ProcessorAffinity` the apply script as written assigns: the Int32 `$mask` widened to 64 bits. */
  function ScriptAffinityAsWritten(sel: seq<nat>): nat {
    ScriptMaskBelow(sel);
    SignExtend(ScriptMaskAsWritten(sel), 32)
  }

  /** Below 32 processors the 32-bit pattern as written is the intended mask. */
  lemma {:induction false} ScriptMaskAgreesBelow32(sel: seq<nat>)
    requires forall a :: 0 <= a < |sel| ==> sel[a] < 32
    ensures ScriptMaskAsWritten(sel) == MaskOf(sel)
  {
    if sel != [] {
      var init, x := sel[..|sel| - 1], sel[|sel| - 1];
      assert x % 32 == x;
      ScriptMaskAgreesBelow32(init);
    }
  }

  /** When no index reaches 31, the affinity the script as written assigns is the intended mask. */
  lemma ScriptAffinityAgreesBelow31(sel: seq<nat>)
    requires forall a :: 0 <= a < |sel| ==> sel[a] < 31
    ensures ScriptAffinityAsWritten(sel) == MaskOf(sel)
  {
    ScriptMaskAgreesBelow32(sel);
    MaskOfBelow(sel, 31);
  }

  /** All of bits 0 .. n-1 of `2^n - 1` are set. */
  lemma {:induction false} OnesBelow(n: nat, i: nat)
    requires i < n
    ensures Has(Pow2(n) - 1, i)
  {
    if i > 0 {
      assert (Pow2(n) - 1) / 2 == Pow2(n - 1) - 1;
      OnesBelow(n - 1, i - 1);
    }
  }

  /** With `p < 2^j`, the bits of `p + 2^j * x` are those of `p` below `j` and those of `x` from `j` on. */
  lemma {:induction false} HasSplit(p: nat, j: nat, x: nat, i: nat)
    requires p < Pow2(j)
    ensures i < j ==> (Has(p + Pow2(j) * x, i) <==> Has(p, i))
    ensures i >= j ==> (Has(p + Pow2(j) * x, i) <==> Has(x, i - j))
    decreases j
  {
    if j > 0 {
      var v := p + Pow2(j) * x;
      assert v == p + 2 * (Pow2(j - 1) * x);
      assert v % 2 == p % 2 && v / 2 == p / 2 + Pow2(j - 1) * x;
      if i > 0 {
        HasSplit(p / 2, j - 1, x, i - 1);
      }
    }
  }

  /** A `w`-bit pattern with its sign bit set widens to a value with every bit from `w - 1` to `2w - 1` set. */
  lemma SignExtendSetsHigh(p: nat, w: nat, j: nat)
    requires 1 <= w && p < Pow2(w) && Has(p, w - 1) && w - 1 <= j < 2 * w
    ensures Has(SignExtend(p, w), j)
  {
    HasBound(p, w - 1);
    HasSplit(p, w, Pow2(w) - 1, j);
    if j >= w {
      OnesBelow(w, j - w);
    }
  }

  /**
   * With 32 processors, the pick [31] should set bit 31 alone; the script as written
   * assigns an affinity with bits 31 to 63 set, naming 32 processors that do not exist.
   */
  lemma ScriptAffinityAtIndex31()
    ensures IsSelection([31], 1, 32)
    ensures forall j :: Has(MaskOf([31]), j) <==> j == 31
    ensures forall j :: 31 <= j < 64 ==> Has(ScriptAffinityAsWritten([31]), j)
  {
    assert [31][..0] == [];
    forall j ensures Has(MaskOf([31]), j) <==> j == 31 {
      MaskOfHas([31], j);
    }
    var p := ScriptMaskAsWritten([31]);
    assert p == OrBit(0, 31);
    ScriptMaskBelow([31]);
    forall j | 31 <= j < 64
      ensures Has(ScriptAffinityAsWritten([31]), j)
    {
      SignExtendSetsHigh(p, 32, j);
    }
  }

  /** Whether any of bits lo .. hi-1 of `m` is set. */
  predicate AnyBetween(m: nat, lo: nat, hi: nat)
    decreases hi - lo
  {
    lo < hi && (Has(m, lo) || AnyBetween(m, lo + 1, hi))
  }

  /** A value with none of bits lo .. hi-1 set has no bit set between them. */
  lemma {:induction false} NoneBetween(m: nat, lo: nat, hi: nat)
    requires forall j :: lo <= j < hi ==> !Has(m, j)
    ensures !AnyBetween(m, lo, hi)
    decreases hi - lo
  {
    if lo < hi {
      NoneBetween(m, lo + 1, hi);
    }
  }

  /**
   * The inspector's bit test as written (cpuaffinity.cpp:154): bit `i % 32`, except
   * that at `i % 32 == 31` the 32-bit one-bit mask is negative and, widened to 64 bits
   * against the mask, tests every bit from 31 to 63.
   */
  predicate ScriptTestAsWritten(mask: nat, i: nat) {
    if i % 32 == 31 then AnyBetween(mask, 31, 64) else Has(mask, i % 32)
  }

  /** The inspector's `$assigned` as written: the indices 0 .. n-1 whose test succeeds. */
  function CountAsWritten(mask: nat, n: nat): nat {
    if n == 0 then 0 else CountAsWritten(mask, n - 1) + (if ScriptTestAsWritten(mask, n - 1) then 1 else 0)
  }

  /** Below 31 processors the inspector as written counts the intended bits. */
  lemma {:induction false} CountAgreesBelow31(mask: nat, n: nat)
    requires n <= 31
    ensures CountAsWritten(mask, n) == CountBelow(mask, n)
  {
    if n > 0 {
      var i := n - 1;
      assert i % 32 == i;
      assert ScriptTestAsWritten(mask, i) == Has(mask, i);
      CountAgreesBelow31(mask, i);
    }
  }

  /**
   * With 33 processors and only core 0 assigned, the inspector as written counts
   * core 0 twice (at i = 0 and again at i = 32) and reports two assigned cores.
   */
  lemma InspectorCountsTwiceAt32()
    ensures MaskOf([0]) == 1
    ensures CountBelow(1, 33) == 1
    ensures CountAsWritten(1, 33) == 2
  {
    assert [0][..0] == [];
    ZeroHasNoBits(0);
    assert Has(1, 0);
    forall j | 1 <= j < 64 ensures !Has(1, j) {
      ZeroHasNoBits(j - 1);
    }
    CountOfOne(33);
    CountOfOne(31);
    CountAgreesBelow31(1, 31);
    NoneBetween(1, 31, 64);
    assert CountAsWritten(1, 32) == 1;
  }

  /**
   * With 33 processors, picking the two distinct cores 0 and 32 sets a single bit:
   * the process is restricted to one core instead of two.
   */
  lemma ScriptMaskAliasesAt32()
    ensures IsSelection([0, 32], 2, 33)
    ensures ScriptAffinityAsWritten([0, 32]) == 1
    ensures CountBelow(ScriptAffinityAsWritten([0, 32]), 33) == 1
    ensures CountBelow(MaskOf([0, 32]), 33) == 2
  {
    PopcountOfSelection([0, 32], 2, 33);
    ScriptPatternAt32();
    Pow2Grows(0, 31);
    CountOfOne(33);
  }

  /** The value 1 has one bit set below any positive bound. */
  lemma {:induction false} CountOfOne(n: nat)
    requires n >= 1
    ensures CountBelow(1, n) == 1
  {
    if n == 1 {
      assert Has(1, 0);
    } else {
      CountOfOne(n - 1);
      ZeroHasNoBits(n - 2);
    }
  }

  /** The 32-bit pattern of the pick [0, 32] is 1: the shift by 32 lands on bit 0 again. */
  lemma ScriptPatternAt32()
    ensures ScriptMaskAsWritten([0, 32]) == 1
  {
    assert [0, 32][..1] == [0];
    assert [0][..0] == [];
    ZeroHasNoBits(0);
    assert Has(1, 0);
  }
}
