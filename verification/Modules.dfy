/**
 Bar code modules: strings of '1' (dark) and '0' (light), and the numbers they stand for.
 */
module Modules {
  import opened Common

  /** The n binary digits of v, the most significant first. */
  function Bits(v: nat, n: nat): (r: string)
    ensures |r| == n
  {
    if n == 0 then "" else Bits(v / 2, n - 1) + [if v % 2 == 1 then '1' else '0']
  }

  function Value(s: string): nat {
    if s == "" then 0 else 2 * Value(s[..|s| - 1]) + (if s[|s| - 1] == '1' then 1 else 0)
  }

  lemma {:induction false} ValueOfBits(v: nat, n: nat)
    requires v < Pow2(n)
    ensures Value(Bits(v, n)) == v
  {
    if n > 0 {
      ValueOfBits(v / 2, n - 1);
      assert Bits(v, n)[..n - 1] == Bits(v / 2, n - 1);
    }
  }

  lemma Pow2Of7And11()
    ensures Pow2(7) == 128 && Pow2(11) == 2048
  {
    assert Pow2(3) == 8 && Pow2(5) == 4 * Pow2(3) && Pow2(7) == 4 * Pow2(5);
    assert Pow2(9) == 4 * Pow2(7) && Pow2(11) == 4 * Pow2(9);
  }

  // ---------- bars ----------

  /** A dark bar: where it starts and how many modules wide it is. */
  datatype Bar = Bar(start: nat, width: nat)

  predicate DarkAt(bits: string, i: int) { 0 <= i < |bits| && bits[i] == '1' }

  /** A run of dark modules that neither neighbour belongs to. */
  ghost predicate MaximalRun(bits: string, b: Bar) {
    && b.width > 0 && (forall i :: b.start <= i < b.start + b.width ==> DarkAt(bits, i))
    && !DarkAt(bits, b.start - 1) && !DarkAt(bits, b.start + b.width)
  }

  ghost predicate Apart(bars: seq<Bar>) {
    forall j, k :: 0 <= j < k < |bars| ==> bars[j].start + bars[j].width < bars[k].start
  }

  /** Two runs that begin inside one of them are the same run. */
  lemma SameRun(bits: string, b: Bar, bar: Bar)
    requires MaximalRun(bits, b) && MaximalRun(bits, bar) && bar.start <= b.start < bar.start + bar.width
    ensures b == bar
  {
    assert b.start == bar.start;
  }

  /** The drawing loop: its inner loop measures a run. */
  method DrawBars(bits: string) returns (bars: seq<Bar>)
    ensures Apart(bars)
    ensures forall b :: b in bars <==> MaximalRun(bits, b)
    ensures Painted(bars, |bits|) == Inked(bits)
  {
    bars := [];
    var index := 0;
    while index < |bits|
      invariant index <= |bits| && !(DarkAt(bits, index - 1) && DarkAt(bits, index))
      invariant Apart(bars) && forall b :: b in bars ==> MaximalRun(bits, b) && b.start + b.width <= index
      invariant forall b :: MaximalRun(bits, b) && b.start < index ==> b in bars
    {
      if bits[index] == '1' {
        var run := 1;
        while index + run < |bits| && bits[index + run] == '1'
          invariant run >= 1 && index + run <= |bits|
          invariant forall i :: index <= i < index + run ==> DarkAt(bits, i)
          decreases |bits| - run
        {
          run := run + 1;
        }
        var bar := Bar(index, run);
        assert MaximalRun(bits, bar);
        forall b | MaximalRun(bits, b) && b.start < index + run ensures b in bars + [bar] {
          if b.start >= index { SameRun(bits, b, bar); }
        }
        forall b | b in bars ensures b.start + b.width < index {
          assert !DarkAt(bits, b.start + b.width);
        }
        bars := bars + [bar];
        index := index + run;
      } else {
        index := index + 1;
      }
    }
    forall b | MaximalRun(bits, b) ensures b in bars {
      assert DarkAt(bits, b.start);
    }
    PaintingIsInking(bits, bars);
  }

  ghost predicate Covered(bars: seq<Bar>, i: nat) { exists b :: b in bars && b.start <= i < b.start + b.width }

  /** What the bars show on a field of n modules. */
  ghost function Painted(bars: seq<Bar>, n: nat): seq<bool> { seq(n, i requires 0 <= i < n => Covered(bars, i)) }

  function Inked(bits: string): seq<bool> { seq(|bits|, i requires 0 <= i < |bits| => bits[i] == '1') }

  lemma RunAround(bits: string, i: nat) returns (b: Bar)
    requires DarkAt(bits, i)
    ensures MaximalRun(bits, b) && b.start <= i < b.start + b.width
  {
    var lo, hi := i, i + 1;
    while DarkAt(bits, lo - 1)
      invariant 0 <= lo <= i && forall k :: lo <= k <= i ==> DarkAt(bits, k)
      decreases lo
    {
      lo := lo - 1;
    }
    while DarkAt(bits, hi)
      invariant i < hi <= |bits| && forall k :: i <= k < hi ==> DarkAt(bits, k)
      decreases |bits| - hi
    {
      hi := hi + 1;
    }
    b := Bar(lo, hi - lo);
  }

  /** Painting the maximal runs paints the symbol. */
  lemma PaintingIsInking(bits: string, bars: seq<Bar>)
    requires forall b :: b in bars <==> MaximalRun(bits, b)
    ensures Painted(bars, |bits|) == Inked(bits)
  {
    forall i | 0 <= i < |bits| ensures Covered(bars, i) <==> bits[i] == '1' {
      if Covered(bars, i) {
        var b :| b in bars && b.start <= i < b.start + b.width;
        assert MaximalRun(bits, b) && DarkAt(bits, i);
      }
      if bits[i] == '1' {
        var b := RunAround(bits, i);
        assert b in bars;
      }
    }
  }
}
