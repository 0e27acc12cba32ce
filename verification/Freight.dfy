/**
 Freight spread over the items of a purchase in proportion to their value, in whole cents.
 */
module Freight {
  import opened Common

  function Sum(xs: seq<int>): int { if xs == [] then 0 else Sum(xs[..|xs| - 1]) + xs[|xs| - 1] }

  /** The share before the last item takes what is left: rounded to the nearest cent, halves up. */
  function Share(total: int, base: int, items: nat, freight: int): int
    requires items > 0
  {
    if base <= 0 then RoundDiv(freight, items) else RoundDiv(total * freight, base)
  }

  /** The shares of the first k items. */
  function FirstShares(totals: seq<int>, freight: int, k: nat): (r: seq<int>)
    requires k <= |totals|
    ensures |r| == k
  {
    if k == 0 then [] else FirstShares(totals, freight, k - 1) + [Share(totals[k - 1], Sum(totals), |totals|, freight)]
  }

  function Shares(totals: seq<int>, freight: int): (r: seq<int>)
    ensures |r| == |totals|
  {
    if totals == [] || freight <= 0 then seq(|totals|, _ => 0)
    else
      var first := FirstShares(totals, freight, |totals| - 1);
      first + [freight - Sum(first)]
  }

  lemma SumAppend(xs: seq<int>, x: int)
    ensures Sum(xs + [x]) == Sum(xs) + x
  {
    assert (xs + [x])[..|xs|] == xs;
  }

  lemma {:induction false} SharesAt(totals: seq<int>, freight: int, k: nat, i: nat)
    requires i < k <= |totals|
    ensures FirstShares(totals, freight, k)[i] == Share(totals[i], Sum(totals), |totals|, freight)
  {
    if i < k - 1 { SharesAt(totals, freight, k - 1, i); }
  }

  // ---------- the allocation ----------

  method TotalValue(totals: seq<int>) returns (base: int)
    ensures base == Sum(totals)
  {
    base := 0;
    for i := 0 to |totals|
      invariant base == Sum(totals[..i])
    {
      assert totals[..i + 1] == totals[..i] + [totals[i]];
      SumAppend(totals[..i], totals[i]);
      base := base + totals[i];
    }
    assert totals[..|totals|] == totals;
  }

  /** All shares are rounded first; then the last cell is overwritten with what is left. */
  method AllocateFreight(totals: seq<int>, freight: int) returns (shares: array<int>)
    ensures fresh(shares) && shares[..] == Shares(totals, freight)
    ensures totals != [] && freight > 0 ==> Sum(shares[..]) == freight
  {
    hide Sum, RoundDiv, Share;
    if totals != [] && freight > 0 { SharesAddUp(totals, freight); }
    var n := |totals|;
    shares := new int[n](i => 0);
    if n == 0 || freight <= 0 { return; }
    var base := TotalValue(totals);
    for i := 0 to n
      invariant shares[..i] == FirstShares(totals, freight, i)
    {
      shares[i] := Share(totals[i], base, n, freight);
      assert shares[..i + 1] == shares[..i] + [shares[i]];
    }
    assert shares[..n][..n - 1] == shares[..n - 1] == FirstShares(totals, freight, n - 1);
    var spread := TotalValue(shares[..n - 1]);
    shares[n - 1] := freight - spread;
    assert shares[..] == shares[..n - 1] + [shares[n - 1]];
  }

  // ---------- nothing is lost ----------

  /** The shares of a positive freight add up to it exactly, whatever the totals. */
  lemma SharesAddUp(totals: seq<int>, freight: int)
    requires totals != [] && freight > 0
    ensures Sum(Shares(totals, freight)) == freight
  {
    var first := FirstShares(totals, freight, |totals| - 1);
    SumAppend(first, freight - Sum(first));
  }

  // ---------- how fair the shares are ----------

  /** How far a share is from the exact proportion, in parts of a cent: as many as the total value has. */
  function Gap(base: int, share: int, total: int, freight: int): int { base * share - total * freight }

  lemma GapAdds(base: int, a: int, b: int, t: int, u: int, freight: int)
    ensures Gap(base, a + b, t + u, freight) == Gap(base, a, t, freight) + Gap(base, b, u, freight)
  {
  }

  lemma GapOfAll(base: int, freight: int)
    ensures Gap(base, freight, base, freight) == 0 && Gap(base, 0, 0, freight) == 0
  {
  }

  lemma NearestCent(base: int, total: int, freight: int)
    requires base > 0
    ensures -base < 2 * Gap(base, RoundDiv(total * freight, base), total, freight) <= base
  {
    var p, r := total * freight, RoundDiv(total * freight, base);
    Regroup(base, r);
  }

  lemma Regroup(q: int, r: int)
    ensures 2 * q * r == 2 * (q * r)
  {
  }

  lemma TimesStep(k: int, base: int)
    ensures k * base == (k - 1) * base + base
  {
  }

  /** Every share but the last is within half a cent of the exact proportion. */
  lemma ShareIsNearest(totals: seq<int>, freight: int, i: nat)
    requires freight > 0 && Sum(totals) > 0 && i < |totals| - 1
    ensures -Sum(totals) < 2 * Gap(Sum(totals), Shares(totals, freight)[i], totals[i], freight) <= Sum(totals)
  {
    hide Gap, RoundDiv, Sum, FirstShares;
    SharesAt(totals, freight, |totals| - 1, i);
    NearestCent(Sum(totals), totals[i], freight);
  }

  lemma NoShares(totals: seq<int>, freight: int)
    ensures Sum(FirstShares(totals, freight, 0)) == 0 && Sum(totals[..0]) == 0
  {
  }

  lemma SharesStep(totals: seq<int>, freight: int, k: nat)
    requires 0 < k <= |totals|
    ensures Sum(FirstShares(totals, freight, k))
         == Sum(FirstShares(totals, freight, k - 1)) + Share(totals[k - 1], Sum(totals), |totals|, freight)
    ensures Sum(totals[..k]) == Sum(totals[..k - 1]) + totals[k - 1]
  {
    hide Share;
    SumAppend(FirstShares(totals, freight, k - 1), Share(totals[k - 1], Sum(totals), |totals|, freight));
    assert totals[..k] == totals[..k - 1] + [totals[k - 1]];
    SumAppend(totals[..k - 1], totals[k - 1]);
  }

  /** What the first k shares are together, against their exact proportion. */
  lemma {:induction false} FirstSharesDrift(totals: seq<int>, freight: int, k: nat)
    requires freight > 0 && Sum(totals) > 0 && k <= |totals|
    ensures var gap := 2 * Gap(Sum(totals), Sum(FirstShares(totals, freight, k)), Sum(totals[..k]), freight);
      -(k * Sum(totals)) <= gap <= k * Sum(totals) && (k > 0 ==> -(k * Sum(totals)) < gap)
  {
    hide Gap, RoundDiv, Sum, FirstShares;
    var base := Sum(totals);
    if k == 0 {
      NoShares(totals, freight);
      GapOfAll(base, freight);
    } else {
      FirstSharesDrift(totals, freight, k - 1);
      SharesStep(totals, freight, k);
      NearestCent(base, totals[k - 1], freight);
      GapAdds(base, Sum(FirstShares(totals, freight, k - 1)), Share(totals[k - 1], base, |totals|, freight),
              Sum(totals[..k - 1]), totals[k - 1], freight);
      TimesStep(k, base);
    }
  }

  lemma LastShare(totals: seq<int>, freight: int)
    requires freight > 0 && totals != []
    ensures Shares(totals, freight)[|totals| - 1] == freight - Sum(FirstShares(totals, freight, |totals| - 1))
  {
    hide Sum, FirstShares;
  }

  /** The last share is at most (n - 1)/2 cents below its exact proportion, and less than that above it. */
  lemma LastShareIsNear(totals: seq<int>, freight: int)
    requires freight > 0 && Sum(totals) > 0 && totals != []
    ensures var n := |totals|; var gap := 2 * Gap(Sum(totals), Shares(totals, freight)[n - 1], totals[n - 1], freight);
      -((n - 1) * Sum(totals)) <= gap <= (n - 1) * Sum(totals) && (n > 1 ==> gap < (n - 1) * Sum(totals))
  {
    hide Gap, Sum, FirstShares, Shares;
    var n, base := |totals|, Sum(totals);
    LastShare(totals, freight);
    var given, value := Sum(FirstShares(totals, freight, n - 1)), Sum(totals[..n - 1]);
    FirstSharesDrift(totals, freight, n - 1);
    SharesStep(totals, freight, n);
    assert totals[..n] == totals;
    GapAdds(base, given, freight - given, value, totals[n - 1], freight);
    GapOfAll(base, freight);
  }

  /** Among the items before the last, a dearer one never gets less, and equal ones get the same. */
  lemma SharesFollowValue(totals: seq<int>, freight: int, i: nat, j: nat)
    requires freight > 0 && Sum(totals) > 0 && i < |totals| - 1 && j < |totals| - 1 && totals[i] <= totals[j]
    ensures Shares(totals, freight)[i] <= Shares(totals, freight)[j]
  {
    hide RoundDiv, Sum, FirstShares;
    SharesAt(totals, freight, |totals| - 1, i);
    SharesAt(totals, freight, |totals| - 1, j);
    ProductRises(totals[i], totals[j], freight);
    RoundDivRises(totals[i] * freight, totals[j] * freight, Sum(totals));
  }

  lemma ProductRises(t: int, u: int, m: int)
    requires t <= u && m >= 0
    ensures t * m <= u * m
  {
  }

  lemma RoundDivRises(p: int, u: int, q: int)
    requires q > 0 && p <= u
    ensures RoundDiv(p, q) <= RoundDiv(u, q)
  {
    var r, s := RoundDiv(p, q), RoundDiv(u, q);
    Regroup(q, r);
    Regroup(q, s);
    assert (s + 1) * q == q * s + q && r * q == q * r;
    if r >= s + 1 { ProductRises(s + 1, r, q); }
  }

  /** A share too far below zero would leave too wide a gap. */
  lemma GapBelow(base: int, share: int, total: int, freight: int, m: int)
    requires base > 0 && 2 * share < -m && total >= 0 && freight > 0
    ensures 2 * Gap(base, share, total, freight) < -(m * base)
  {
    assert base * (2 * share + m) < 0;
    assert base * (2 * share + m) == 2 * (base * share) + m * base;
    ProductRises(0, total, freight);
  }

  lemma GapOfNegative(base: int, share: int, total: int, freight: int)
    requires base > 0 && share <= -1
    ensures Gap(base, share, total, freight) <= -base - total * freight
  {
    ProductRises(share, -1, base);
  }

  /**
   With no negative totals every share but the last is non-negative; the last is at worst (n - 1)/2
   cents below zero, and not below at all if its exact share is at least that much.
   */
  lemma SharesAreNonNegative(totals: seq<int>, freight: int, i: nat)
    requires freight > 0 && Sum(totals) > 0 && (forall k :: 0 <= k < |totals| ==> totals[k] >= 0) && i < |totals|
    ensures var n := |totals|; var s := Shares(totals, freight)[i];
      && (i < n - 1 ==> s >= 0)
      && 2 * s >= -(n - 1)
      && (2 * (totals[i] * freight) >= (n - 1) * Sum(totals) ==> s >= 0)
  {
    hide Gap, Sum, FirstShares, Shares;
    var n, base, s := |totals|, Sum(totals), Shares(totals, freight)[i];
    ProductRises(0, totals[i], freight);
    if i < n - 1 {
      ShareIsNearest(totals, freight, i);
      if s <= -1 { GapOfNegative(base, s, totals[i], freight); }
    } else {
      LastShareIsNear(totals, freight);
      if 2 * s < -(n - 1) { GapBelow(base, s, totals[i], freight, n - 1); }
      if s <= -1 { GapOfNegative(base, s, totals[i], freight); }
    }
  }

  /** Goods without value share alike: every share but the last is the nearest cent to an equal part. */
  lemma WorthlessGoodsShareAlike(totals: seq<int>, freight: int, i: nat)
    requires freight > 0 && Sum(totals) <= 0 && i < |totals| - 1
    ensures var n := |totals|; -n < 2 * (n * Shares(totals, freight)[i] - freight) <= n
  {
    hide RoundDiv, Sum, FirstShares;
    SharesAt(totals, freight, |totals| - 1, i);
    NearestCent(|totals|, 1, freight);
  }

  // ---------- what exactly the last item gets ----------

  /** What rounding adds to a share, in parts of a cent: as many as the total value has. */
  function Gain(base: int, total: int, freight: int): int
    requires base > 0
  {
    var r := total * freight % base;
    if 2 * r >= base then base - r else -r
  }

  /** What rounding adds to the first `k` shares together. */
  function Gains(totals: seq<int>, freight: int, k: nat): int
    requires k <= |totals| && Sum(totals) > 0
  {
    if k == 0 then 0 else Gains(totals, freight, k - 1) + Gain(Sum(totals), totals[k - 1], freight)
  }

  lemma QuotientBetween(q: int, r: int, s: int)
    requires q > 0 && q * r < q * s + q && q * s < q * r + q
    ensures r == s
  {
    if r > s { ProductRises(s + 1, r, q); }
    if s > r { ProductRises(r + 1, s, q); }
  }

  /** Rounding a quotient goes by its remainder. */
  lemma RoundByRemainder(p: int, q: int)
    requires q > 0
    ensures RoundDiv(p, q) == p / q + (if 2 * (p % q) >= q then 1 else 0)
  {
    var d, r, x := p / q, p % q, RoundDiv(p, q);
    var up := if 2 * r >= q then 1 else 0;
    assert p == q * d + r;
    Regroup(q, x);
    assert q * (d + up) == q * d + q * up;
    QuotientBetween(q, x, d + up);
  }

  lemma GainIsGap(base: int, total: int, freight: int)
    requires base > 0
    ensures Gap(base, RoundDiv(total * freight, base), total, freight) == Gain(base, total, freight)
  {
    var p := total * freight;
    RoundByRemainder(p, base);
    assert p == base * (p / base) + p % base;
    assert base * (p / base + 1) == base * (p / base) + base;
  }

  lemma NoGains(totals: seq<int>, freight: int)
    requires Sum(totals) > 0
    ensures Gains(totals, freight, 0) == 0
  {
  }

  /** The first shares overshoot their exact proportion by what rounding added. */
  lemma {:induction false} GainsAdd(totals: seq<int>, freight: int, k: nat)
    requires Sum(totals) > 0 && k <= |totals|
    ensures
      Gap(Sum(totals), Sum(FirstShares(totals, freight, k)), Sum(totals[..k]), freight) == Gains(totals, freight, k)
  {
    hide Gap, RoundDiv, Sum, FirstShares, Gain;
    var base := Sum(totals);
    if k == 0 {
      NoShares(totals, freight);
      GapOfAll(base, freight);
    } else {
      GainsAdd(totals, freight, k - 1);
      SharesStep(totals, freight, k);
      GainIsGap(base, totals[k - 1], freight);
      GapAdds(base, Sum(FirstShares(totals, freight, k - 1)), Share(totals[k - 1], base, |totals|, freight),
              Sum(totals[..k - 1]), totals[k - 1], freight);
    }
  }

  /** With value, the last share is its exact proportion less everything rounding added to the others. */
  lemma LastShareWithValue(totals: seq<int>, freight: int)
    requires freight > 0 && Sum(totals) > 0 && totals != []
    ensures var n := |totals|;
      Sum(totals) * Shares(totals, freight)[n - 1] == totals[n - 1] * freight - Gains(totals, freight, n - 1)
  {
    hide Sum, FirstShares, Shares, Gains;
    var n, base := |totals|, Sum(totals);
    var first, value := Sum(FirstShares(totals, freight, n - 1)), Sum(totals[..n - 1]);
    GainsAdd(totals, freight, n - 1);
    LastShare(totals, freight);
    SharesStep(totals, freight, n);
    assert totals[..n] == totals;
    assert base * (freight - first) == base * freight - base * first;
    assert (value + totals[n - 1]) * freight == value * freight + totals[n - 1] * freight;
  }

  lemma {:induction false} EqualSharesSum(totals: seq<int>, freight: int, k: nat)
    requires Sum(totals) <= 0 && k <= |totals| && totals != []
    ensures Sum(FirstShares(totals, freight, k)) == k * RoundDiv(freight, |totals|)
  {
    hide RoundDiv, Sum, FirstShares;
    if k == 0 {
      NoShares(totals, freight);
    } else {
      EqualSharesSum(totals, freight, k - 1);
      SharesStep(totals, freight, k);
    }
  }

  /** What is left of a sum after all but one of the rounded parts. */
  lemma LeftOver(n: nat, sum: int)
    requires n > 0
    ensures var q, r := sum / n, sum % n;
      sum - (n - 1) * RoundDiv(sum, n) == if 2 * r >= n then q + r - (n - 1) else q + r
  {
    hide RoundDiv;
    RoundByRemainder(sum, n);
    AllButOne(n, sum / n, sum % n, sum);
  }

  lemma AllButOne(n: int, q: int, r: int, sum: int)
    requires sum == n * q + r
    ensures sum - (n - 1) * q == q + r && sum - (n - 1) * (q + 1) == q + r - (n - 1)
  {
    assert (n - 1) * q == n * q - q;
    assert (n - 1) * (q + 1) == (n - 1) * q + (n - 1);
  }

  /** Without value every share but the last is the rounded part, and the last takes what is left. */
  lemma LastShareWithoutValue(totals: seq<int>, freight: int)
    requires freight > 0 && Sum(totals) <= 0 && totals != []
    ensures var n := |totals|; var q, r := freight / n, freight % n;
      Shares(totals, freight)[n - 1] == if 2 * r >= n then q + r - (n - 1) else q + r
  {
    hide Sum, FirstShares, Shares, RoundDiv;
    var n := |totals|;
    EqualSharesSum(totals, freight, n - 1);
    LastShare(totals, freight);
    LeftOver(n, freight);
  }

  /**
   Exactly when the last item gets a negative share. With value: when rounding adds more to the others
   than the last is due. Without value: when the equal part rounds up and too little is left.
   */
  lemma LastShareNegativeExactly(totals: seq<int>, freight: int)
    requires totals != []
    ensures var n := |totals|;
      Shares(totals, freight)[n - 1] < 0 <==>
        && freight > 0
        && if Sum(totals) > 0 then Gains(totals, freight, n - 1) > totals[n - 1] * freight
           else 2 * (freight % n) >= n && freight / n + freight % n < n - 1
  {
    hide Sum, FirstShares, Gains;
    var n, base := |totals|, Sum(totals);
    if freight > 0 {
      hide Shares;
      var last := Shares(totals, freight)[n - 1];
      if base > 0 {
        LastShareWithValue(totals, freight);
        if last < 0 { ProductRises(last, -1, base); } else { ProductRises(0, last, base); }
      } else {
        LastShareWithoutValue(totals, freight);
        assert freight / n >= 0;
      }
    }
  }

  /**
   Exactly when the last item gets less, or more, than an earlier one: with value, rounding counts
   against what it is worth more; without value it gets less exactly when the equal part rounds up.
   */
  lemma LastAgainstEarlier(totals: seq<int>, freight: int, i: nat)
    requires freight > 0 && i < |totals| - 1
    ensures var n := |totals|; var last, other := Shares(totals, freight)[n - 1], Shares(totals, freight)[i];
      if Sum(totals) > 0 then
        var rounding := Gains(totals, freight, n - 1) + Gain(Sum(totals), totals[i], freight);
        && (last < other <==> rounding > (totals[n - 1] - totals[i]) * freight)
        && (last > other <==> rounding < (totals[n - 1] - totals[i]) * freight)
      else
        last < other <==> 2 * (freight % n) >= n
  {
    hide Sum, FirstShares, Gains, Gain, RoundDiv;
    var n, base := |totals|, Sum(totals);
    var last, other := Shares(totals, freight)[n - 1], Shares(totals, freight)[i];
    SharesAt(totals, freight, n - 1, i);
    if base > 0 {
      LastShareWithValue(totals, freight);
      GainIsGap(base, totals[i], freight);
      SignOfProduct(base, last, other);
      assert (totals[n - 1] - totals[i]) * freight == totals[n - 1] * freight - totals[i] * freight;
    } else {
      LastShareWithoutValue(totals, freight);
      RoundByRemainder(freight, n);
    }
  }

  lemma SignOfProduct(q: int, r: int, s: int)
    requires q > 0
    ensures (r < s <==> q * r < q * s) && (r > s <==> q * r > q * s)
  {
    if r < s { ProductRises(r + 1, s, q); }
    if r > s { ProductRises(s + 1, r, q); }
  }

  lemma SumOfFive(a: int, b: int, c: int, d: int, e: int)
    ensures Sum([a, b, c, d]) == a + b + c + d && Sum([a, b, c, d, e]) == a + b + c + d + e
  {
    SumAppend([], a);
    SumAppend([a], b);
    SumAppend([a, b], c);
    SumAppend([a, b, c], d);
    SumAppend([a, b, c, d], e);
    assert [] + [a] == [a] && [a] + [b] == [a, b] && [a, b] + [c] == [a, b, c] && [a, b, c] + [d] == [a, b, c, d];
    assert [a, b, c, d] + [e] == [a, b, c, d, e];
  }

  /** A cheap last item, and goods without any value: both leave the last with minus one cent. */
  lemma LastShareCanBeNegative()
    ensures Shares([3, 3, 3, 1], 5) == [2, 2, 2, -1]
    ensures Shares([0, 0, 0, 0], 2) == [1, 1, 1, -1]
  {
    FourShares([3, 3, 3, 1], 5, 2);
    FourShares([0, 0, 0, 0], 2, 1);
  }

  lemma FourShares(totals: seq<int>, freight: int, each: int)
    requires |totals| == 4 && freight > 0
    requires var base := totals[0] + totals[1] + totals[2] + totals[3];
      forall i :: 0 <= i < 3 ==> Share(totals[i], base, 4, freight) == each
    ensures Shares(totals, freight) == [each, each, each, freight - 3 * each]
  {
    hide Share;
    assert totals == [totals[0], totals[1], totals[2], totals[3]];
    SumOfFive(totals[0], totals[1], totals[2], totals[3], 0);
    assert FirstShares(totals, freight, 1) == [each] && FirstShares(totals, freight, 2) == [each, each];
    assert FirstShares(totals, freight, 3) == [each, each, each];
    SumOfFive(each, each, each, 0, 0);
    SumAppend([each, each, each], 0);
    assert [each, each, each] + [0] == [each, each, each, 0];
  }

  /** The last of five items is worth twice each of the others, and gets less than any of them. */
  lemma DearerLastGetsLess()
    ensures Shares([1, 1, 1, 1, 2], 3) == [1, 1, 1, 1, -1]
  {
    var totals := [1, 1, 1, 1, 2];
    SumOfFive(1, 1, 1, 1, 2);
    SumOfFive(1, 1, 1, 1, 0);
    assert FirstShares(totals, 3, 1) == [1] && FirstShares(totals, 3, 2) == [1, 1];
    assert FirstShares(totals, 3, 3) == [1, 1, 1] && FirstShares(totals, 3, 4) == [1, 1, 1, 1];
  }

  // ---------- how unfair the last share can be ----------

  /** `m` items of one cent before one of `w` cents. */
  function OnesAnd(m: nat, w: nat): (r: seq<int>)
    ensures |r| == m + 1
  {
    Ones(m) + [w]
  }

  function Ones(m: nat): (r: seq<int>)
    ensures |r| == m && forall k :: 0 <= k < m ==> r[k] == 1
  {
    seq(m, _ => 1)
  }

  lemma {:induction false} OnesSum(m: nat)
    ensures Sum(Ones(m)) == m
  {
    if m > 0 {
      assert Ones(m)[..m - 1] == Ones(m - 1);
      OnesSum(m - 1);
    }
  }

  lemma HalfRoundsUp(base: int)
    requires base > 0 && base % 2 == 0
    ensures RoundDiv(1 * (base / 2), base) == 1
  {
    var half := base / 2;
    assert base == 2 * half && 2 * (1 * half) + base == 2 * base;
    QuotientIs(2 * base, 2 * base);
  }

  lemma QuotientIs(x: int, d: int)
    requires d > 0 && x == d
    ensures x / d == 1
  {
  }

  lemma {:induction false} EachGetsACent(totals: seq<int>, freight: int, k: nat)
    requires k <= |totals| && Sum(totals) > 0 && Sum(totals) == 2 * freight
    requires forall i :: 0 <= i < k ==> totals[i] == 1
    ensures FirstShares(totals, freight, k) == Ones(k)
  {
    hide Sum, RoundDiv;
    if k > 0 {
      EachGetsACent(totals, freight, k - 1);
      HalfRoundsUp(Sum(totals));
      assert Ones(k) == Ones(k - 1) + [1];
    }
  }

  /**
   The bound is met for every number of items: when all but the last are due exactly half a cent each,
   the last falls m/2 cents short of its proportion, and below zero exactly when it is worth fewer
   cents than there are others.
   */
  lemma LastShareFallsShort(m: nat, w: nat)
    requires m > 0 && (m + w) % 2 == 0
    ensures var totals, freight := OnesAnd(m, w), (m + w) / 2; var last := Shares(totals, freight)[m];
      && Sum(totals) == m + w && 2 * last == w - m
      && 2 * Gap(Sum(totals), last, w, freight) == -(m * Sum(totals))
      && (last < 0 <==> w < m)
  {
    hide Sum, RoundDiv, FirstShares;
    var totals, freight := OnesAnd(m, w), (m + w) / 2;
    OnesSum(m);
    SumAppend(Ones(m), w);
    EachGetsACent(totals, freight, m);
    LastShare(totals, freight);
    var base, last := m + w, freight - m;
    assert 2 * last == w - m && base == 2 * freight;
    assert 2 * (base * last) == base * (w - m) && 2 * (w * freight) == w * base;
    assert base * (w - m) == w * base - m * base;
  }
}
