/** Resource credits: caps, regeneration, cost, and the clamped block clock (pkg/rc/rc.go). */
module Rc {
  import opened Machine
  import opened Sorting

  datatype Params = Params(
    alpha: uint64, beta: uint64, cSize: uint64, cCompute: uint64, cStorage: uint64,
    maxSkewSec: int64, windowN: int)
  {
    // ----- what the accumulators are meant to compute, in unbounded integers -----

    function Cap(stake: uint64): (c: nat) {
      MulNonNegative(alpha, stake);
      Min(alpha * stake, MAX64)
    }

    /** Credits gained per second; a zero beta leaves out the stake factor too. */
    function Rate(stake: uint64): (r: nat)
      ensures stake >= 1 ==> r >= 1
    {
      MulNonNegative(beta, stake);
      if beta == 0 then 1 else beta * stake
    }

    function RegenFor(currentRC: uint64, stake: uint64, elapsed: int): (rc: uint64) {
      MulNonNegative(Rate(stake), Max0(elapsed));
      Min(currentRC + Rate(stake) * Max0(elapsed), Cap(stake))
    }

    /** Regeneration over the wrapped int64 difference of the two times. */
    function RegenRC(currentRC: uint64, stake: uint64, last: int64, now: int64): uint64 {
      RegenFor(currentRC, stake, WrapSigned(now - last))
    }

    function CostOf(size: uint64, instructions: uint64, writes: uint64): uint64 {
      MulNonNegative(cSize, size);
      MulNonNegative(cCompute, instructions);
      MulNonNegative(cStorage, writes);
      Min(cSize * size + cCompute * instructions + cStorage * writes, MAX64)
    }

    // ----- the code -----

    function RCMax(stake: uint64): (r: uint64)
      ensures r == Cap(stake) == Min(alpha * stake, MAX64)
    {
      MulNonNegative(alpha, stake);
      if stake == 0 || alpha == 0 then 0
      else
        DivBound(stake, alpha);
        if stake > MAX64 / alpha then MAX64 else alpha * stake
    }

    /**
     * In plain products: for each second of the int64 difference of the times, if it is
     * positive, beta per unit of stake is added, one in all if beta is zero, and the sum is
     * cut to alpha per unit of stake and to 2^64 - 1.
     */
    method Regen(currentRC: uint64, stake: uint64, last: int64, now: int64) returns (rc: uint64, at: int64)
      ensures rc == RegenRC(currentRC, stake, last, now) && at == now
      ensures beta >= 1 && 0 <= now - last < TWO63 ==>
                rc == Min(Min(currentRC + beta * stake * (now - last), alpha * stake), MAX64)
      ensures beta == 0 && 0 <= now - last < TWO63 ==>
                rc == Min(Min(currentRC + (now - last), alpha * stake), MAX64)
      ensures -TWO63 <= now - last <= 0 || now - last >= TWO63 ==> rc == Min(Min(currentRC, alpha * stake), MAX64)
      ensures beta >= 1 && now - last < -TWO63 ==>
                rc == Min(Min(currentRC + beta * stake * (now - last + TWO64), alpha * stake), MAX64)
    {
      RegenMeans(currentRC, stake, last, now);
      if stake == 0 {
        return 0, now;
      }
      var dt := WrapSigned(now - last);
      if dt < 0 {
        dt := 0;
      }
      var regen: uint64 := dt;
      if beta != 0 {
        DivBound(regen, beta);
        MulNonNegative(regen, beta);
        if regen > MAX64 / beta {
          regen := MAX64;
        } else {
          regen := regen * beta;
        }
        ghost var scaled := regen;
        DivBound(regen, stake);
        MulNonNegative(regen, stake);
        if regen > MAX64 / stake {
          regen := MAX64;
        } else {
          regen := regen * stake;
        }
        CappedTwice(dt, beta, stake, scaled, regen);
      }
      assert regen == Min(Rate(stake) * Max0(WrapSigned(now - last)), MAX64);
      rc := currentRC;
      if regen > 0 {
        if rc > MAX64 - regen {
          rc := MAX64;
        } else {
          rc := rc + regen;
        }
      }
      var rcMax := RCMax(stake);
      if rc > rcMax {
        rc := rcMax;
      }
      at := now;
    }

    lemma RegenMeans(currentRC: uint64, stake: uint64, last: int64, now: int64)
      ensures beta >= 1 && 0 <= now - last < TWO63 ==>
                RegenRC(currentRC, stake, last, now)
                  == Min(Min(currentRC + beta * stake * (now - last), alpha * stake), MAX64)
      ensures beta == 0 && 0 <= now - last < TWO63 ==>
                RegenRC(currentRC, stake, last, now) == Min(Min(currentRC + (now - last), alpha * stake), MAX64)
      ensures -TWO63 <= now - last <= 0 || now - last >= TWO63 ==>
                RegenRC(currentRC, stake, last, now) == Min(Min(currentRC, alpha * stake), MAX64)
      ensures beta >= 1 && now - last < -TWO63 ==>
                RegenRC(currentRC, stake, last, now)
                  == Min(Min(currentRC + beta * stake * (now - last + TWO64), alpha * stake), MAX64)
    {
      hide WrapSigned;
      if -TWO63 <= now - last < TWO63 {
        WrapSignedSmall(now - last);
      } else {
        WrapSignedFar(now - last);
      }
      MulNonNegative(beta, stake);
      assert Rate(stake) * 0 == 0;
    }

    /** The closure `add` of Cost: one product, saturating. */
    method AddProduct(total: uint64, a: uint64, b: uint64) returns (sum: uint64)
      ensures sum == Min(total + a * b, MAX64)
    {
      if a == 0 || b == 0 {
        return total;
      }
      DivBound(b, a);
      if b > MAX64 / a {
        return MAX64;
      }
      if total > MAX64 - a * b {
        return MAX64;
      }
      return total + a * b;
    }

    method Cost(size: uint64, instructions: uint64, writes: uint64) returns (total: uint64)
      ensures total == CostOf(size, instructions, writes)
      ensures total == Min(cSize * size + cCompute * instructions + cStorage * writes, MAX64)
    {
      MulNonNegative(cSize, size);
      MulNonNegative(cCompute, instructions);
      MulNonNegative(cStorage, writes);
      total := 0;
      total := AddProduct(total, cSize, size);
      total := AddProduct(total, cCompute, instructions);
      total := AddProduct(total, cStorage, writes);
    }

    // ----- laws -----

    /**
     * The closed form over the true difference of the times holds exactly when that
     * difference fits in int64 or the account is already at its cap.
     */
    lemma RegenExact(currentRC: uint64, stake: uint64, last: int64, now: int64)
      ensures RegenRC(currentRC, stake, last, now) == RegenFor(currentRC, stake, now - last)
         <==> (-TWO63 <= now - last < TWO63 || currentRC >= Cap(stake))
    {
      var d := now - last;
      if -TWO63 <= d < TWO63 {
        WrapSignedSmall(d);
      } else {
        assert WrapSigned(d) == (if d > 0 then d - TWO64 else d + TWO64) by {
          WrapSignedFar(d);
        }
        if stake == 0 {
          assert Cap(stake) == 0;
        } else {
          MulAtLeast(Rate(stake), Max0(d));
          MulAtLeast(Rate(stake), Max0(WrapSigned(d)));
        }
      }
    }

    /** Regenerating in two steps is regenerating in one. */
    lemma RegenComposes(currentRC: uint64, stake: uint64, t0: int64, t1: int64, t2: int64)
      requires t0 <= t1 <= t2 && t2 - t0 < TWO63
      ensures RegenRC(RegenRC(currentRC, stake, t0, t1), stake, t1, t2) == RegenRC(currentRC, stake, t0, t2)
    {
      hide Cap, WrapSigned;
      WrapSignedSmall(t1 - t0);
      WrapSignedSmall(t2 - t1);
      WrapSignedSmall(t2 - t0);
      MulSplit(Rate(stake), t1 - t0, t2 - t1);
    }

    /** An account within its cap never loses credits by regenerating. */
    lemma RegenKeeps(currentRC: uint64, stake: uint64, last: int64, now: int64)
      requires currentRC <= RCMax(stake)
      ensures currentRC <= RegenRC(currentRC, stake, last, now) <= RCMax(stake)
    {
      MulNonNegative(Rate(stake), Max0(WrapSigned(now - last)));
    }

    /** Regenerating clips credits to the cap and adds to them below it. */
    lemma RegenBetween(currentRC: uint64, stake: uint64, last: int64, now: int64)
      ensures Min(currentRC, RCMax(stake)) <= RegenRC(currentRC, stake, last, now) <= RCMax(stake)
    {
      MulNonNegative(Rate(stake), Max0(WrapSigned(now - last)));
    }

    /** In no time nothing is gained. */
    lemma RegenAtOnce(currentRC: uint64, stake: uint64, now: int64)
      ensures RegenRC(currentRC, stake, now, now) == Min(currentRC, RCMax(stake))
    {
      WrapSignedSmall(0);
      assert Rate(stake) * 0 == 0;
    }

    /**
     * Time adds at most beta per second and unit of stake, a clock that runs back nothing, and
     * never beyond alpha per unit of stake.
     */
    lemma RegenBounded(currentRC: uint64, stake: uint64, last: int64, now: int64)
      requires beta >= 1
      ensures RegenRC(currentRC, stake, last, now) <= alpha * stake
      ensures -TWO63 <= now - last < TWO63 ==>
                RegenRC(currentRC, stake, last, now) <= currentRC + beta * stake * Max0(now - last)
    {
      MulNonNegative(Rate(stake), Max0(WrapSigned(now - last)));
      if -TWO63 <= now - last < TWO63 {
        WrapSignedSmall(now - last);
      }
    }

    /** More instructions or more writes never cost less. */
    lemma CostMonotone(size: uint64, i: uint64, i': uint64, w: uint64, w': uint64)
      requires i <= i' && w <= w'
      ensures CostOf(size, i, w) <= CostOf(size, i', w')
    {
      MulMonotone(cCompute, i, i');
      MulMonotone(cStorage, w, w');
    }
  }

  function Max0(x: int): nat { if x < 0 then 0 else x }

  lemma MulNonNegative(a: int, b: int)
    requires a >= 0 && b >= 0
    ensures a * b >= 0 && (a >= 1 && b >= 1 ==> a * b >= 1)
  {
  }

  lemma MulSplit(r: nat, x: nat, y: nat)
    ensures r * (x + y) == r * x + r * y && r * x >= 0 && r * y >= 0
  {
  }

  lemma MulAtLeast(a: nat, b: nat)
    requires a >= 1
    ensures a * b >= b
  {
  }

  lemma MulMonotone(a: nat, b: nat, c: nat)
    requires b <= c
    ensures a * b <= a * c
  {
  }

  /** The overflow test `x > max / m` says precisely that x * m exceeds max. */
  lemma DivBound(x: nat, m: nat)
    requires m >= 1
    ensures x > MAX64 / m <==> x * m > MAX64
  {
    var q := MAX64 / m;
    assert q * m <= MAX64 < (q + 1) * m;
    if x > q {
      MulMonotone(m, q + 1, x);
    } else {
      MulMonotone(m, x, q);
    }
  }

  /** Capping after each of two factors is capping the whole product. */
  lemma CappedTwice(d: nat, beta: nat, stake: nat, scaled: nat, r: nat)
    requires beta >= 1 && stake >= 1
    requires scaled == Min(d * beta, MAX64) && r == Min(scaled * stake, MAX64)
    ensures r == Min(beta * stake * d, MAX64)
  {
    assert d * beta * stake == beta * stake * d;
    if d * beta > MAX64 {
      MulMonotone(stake, MAX64, d * beta);
      MulAtLeast(stake, MAX64);
    }
  }

  lemma WrapSignedFar(d: int)
    requires -TWO64 < d < TWO64 && !(-TWO63 <= d < TWO63)
    ensures WrapSigned(d) == if d > 0 then d - TWO64 else d + TWO64
  {
    if d < 0 {
      assert (d + TWO64) % TWO64 == d % TWO64;
    }
  }

  // ----- the block clock -----

  predicate TimeLeq(x: int64, y: int64) { x <= y }

  /** Lower median of a sorted copy; 0 for an empty window. */
  function Median(timestamps: seq<int64>): int64 {
    if |timestamps| == 0 then 0
    else
      var cp := SortSlice(timestamps, TimeLeq);
      SortedTimes(timestamps);
      var m := |cp| / 2;
      if |cp| % 2 == 1 then cp[m] else cp[m - 1]
  }

  function EffectiveTime(blockTimestamp: int64, lastTimestamps: seq<int64>, maxSkew: int64): int64 {
    if |lastTimestamps| == 0 then blockTimestamp
    else
      var median := Median(lastTimestamps);
      var min := WrapSigned(median - maxSkew);
      var max := WrapSigned(median + maxSkew);
      if blockTimestamp < min then min
      else if blockTimestamp > max then max
      else blockTimestamp
  }

  function Distance(x: int, y: int): nat { if x <= y then y - x else x - y }

  /** The effective time is the one within the skew of the median that is nearest to the block's own. */
  lemma EffectiveIsNearest(blockTimestamp: int64, window: seq<int64>, maxSkew: int64)
    ensures |window| == 0 ==> EffectiveTime(blockTimestamp, window, maxSkew) == blockTimestamp
    ensures var m, at := Median(window), EffectiveTime(blockTimestamp, window, maxSkew);
      |window| > 0 && maxSkew >= 0 && -TWO63 <= m - maxSkew && m + maxSkew < TWO63 ==>
        && m - maxSkew <= at <= m + maxSkew
        && forall x :: m - maxSkew <= x <= m + maxSkew ==> Distance(blockTimestamp, at) <= Distance(blockTimestamp, x)
  {
    hide Median, WrapSigned;
    var m := Median(window);
    if maxSkew >= 0 && -TWO63 <= m - maxSkew && m + maxSkew < TWO63 {
      WrapSignedSmall(m - maxSkew);
      WrapSignedSmall(m + maxSkew);
    }
  }

  lemma SortedTimes(ts: seq<int64>)
    ensures SortingOf(SortSlice(ts, TimeLeq), ts, TimeLeq) && |SortSlice(ts, TimeLeq)| == |ts|
  {
    SortSliceSorts(ts, TimeLeq);
    SameMembers(SortSlice(ts, TimeLeq), ts);
  }

  function Below(m: int): int64 -> bool { (x: int64) => x < m }

  function UpTo(m: int): int64 -> bool { (x: int64) => x <= m }

  function InRange(lo: int, hi: int): int64 -> bool { (x: int64) => lo <= x <= hi }

  lemma FewBelow(cp: seq<int64>, k: nat)
    requires Sorted(cp, TimeLeq) && k < |cp|
    ensures Count(cp, Below(cp[k])) <= k
  {
    var m, tail := cp[k], cp[k..];
    assert cp == cp[..k] + tail;
    CountConcat(cp[..k], tail, Below(m));
    forall i | 0 <= i < |tail|
      ensures !Below(m)(tail[i])
    {
      assert i == 0 || TimeLeq(cp[k], cp[k + i]);
    }
    CountAll(tail, Below(m));
  }

  lemma ManyUpTo(cp: seq<int64>, k: nat)
    requires Sorted(cp, TimeLeq) && k < |cp|
    ensures Count(cp, UpTo(cp[k])) >= k + 1
  {
    var m, head := cp[k], cp[..k + 1];
    assert cp == head + cp[k + 1..];
    CountConcat(head, cp[k + 1..], UpTo(m));
    forall i | 0 <= i < |head|
      ensures UpTo(m)(head[i])
    {
      assert i == k || TimeLeq(cp[i], cp[k]);
    }
    CountAll(head, UpTo(m));
  }

  lemma MedianPosition(ts: seq<int64>)
    requires |ts| > 0
    ensures |SortSlice(ts, TimeLeq)| == |ts| && Median(ts) == SortSlice(ts, TimeLeq)[(|ts| - 1) / 2]
  {
    SortedTimes(ts);
  }

  /** The median is the value with fewer than half the window below it and at least half up to it. */
  lemma MedianSplitsWindow(ts: seq<int64>)
    requires |ts| > 0
    ensures 2 * Count(ts, Below(Median(ts))) < |ts| <= 2 * Count(ts, UpTo(Median(ts)))
  {
    var cp, m, k := SortSlice(ts, TimeLeq), Median(ts), (|ts| - 1) / 2;
    MedianPosition(ts);
    SortedTimes(ts);
    FewBelow(cp, k);
    ManyUpTo(cp, k);
    CountPermuted(cp, ts, Below(m));
    CountPermuted(cp, ts, UpTo(m));
  }

  /** Whatever holds a majority of the window holds the median. */
  lemma MedianInMajority(ts: seq<int64>, lo: int, hi: int)
    requires 2 * Count(ts, InRange(lo, hi)) > |ts|
    ensures lo <= Median(ts) <= hi
  {
    var m := Median(ts);
    MedianSplitsWindow(ts);
    if m < lo {
      CountDisjoint(ts, InRange(lo, hi), UpTo(m));
    } else if m > hi {
      CountImplies(ts, InRange(lo, hi), Below(m));
    }
  }

  /** The check HandleProposal makes on a block's timestamp. */
  predicate TimestampAccepted(ts: int64, window: seq<int64>, maxSkew: int64) {
    |window| == 0 || EffectiveTime(ts, window, maxSkew) == ts
  }

  /** The bounds are compared after they have wrapped. */
  lemma AcceptedBounds(ts: int64, window: seq<int64>, maxSkew: int64)
    requires |window| > 0
    ensures TimestampAccepted(ts, window, maxSkew)
       <==> WrapSigned(Median(window) - maxSkew) <= ts <= WrapSigned(Median(window) + maxSkew)
  {
  }

  /** Accepted times are those within the skew of the median exactly when neither bound leaves an int64. */
  lemma AcceptedExactly(window: seq<int64>, maxSkew: int64)
    requires |window| > 0
    ensures (forall ts: int64 :: TimestampAccepted(ts, window, maxSkew) <==>
               Median(window) - maxSkew <= ts <= Median(window) + maxSkew)
       <==> -TWO63 <= Median(window) - maxSkew < TWO63 && -TWO63 <= Median(window) + maxSkew < TWO63
  {
    hide TimestampAccepted, Median, WrapSigned;
    var m := Median(window);
    forall ts: int64
      ensures TimestampAccepted(ts, window, maxSkew) <==> WrapSigned(m - maxSkew) <= ts <= WrapSigned(m + maxSkew)
    {
      AcceptedBounds(ts, window, maxSkew);
    }
    if -TWO63 <= m - maxSkew < TWO63 && -TWO63 <= m + maxSkew < TWO63 {
      WrapSignedSmall(m - maxSkew);
      WrapSignedSmall(m + maxSkew);
    } else {
      var ts := WrongAnswer(m, maxSkew);
      assert TimestampAccepted(ts, window, maxSkew) <==> !(m - maxSkew <= ts <= m + maxSkew);
    }
  }

  /** A time on which wrapped and unwrapped bounds disagree: the median itself, or an end of the wrapped interval. */
  lemma WrongAnswer(m: int64, maxSkew: int64) returns (ts: int64)
    requires !(-TWO63 <= m - maxSkew < TWO63 && -TWO63 <= m + maxSkew < TWO63)
    ensures WrapSigned(m - maxSkew) <= ts <= WrapSigned(m + maxSkew) <==> !(m - maxSkew <= ts <= m + maxSkew)
  {
    WrapOnce(m - maxSkew);
    WrapOnce(m + maxSkew);
    ts := if maxSkew >= 0 then m else WrapSigned(m - maxSkew);
  }

  lemma WrapOnce(x: int)
    requires -TWO64 <= x < TWO64
    ensures WrapSigned(x) == if x < -TWO63 then x + TWO64 else if x < TWO63 then x else x - TWO64
  {
    if x < 0 {
      assert (x + TWO64) % TWO64 == x % TWO64;
    }
  }

  /** A majority of the window bounds what a proposer can get accepted. */
  lemma AcceptedNearMajority(ts: int64, window: seq<int64>, maxSkew: int64, lo: int, hi: int)
    requires 2 * Count(window, InRange(lo, hi)) > |window|
    requires maxSkew >= 0 && -TWO63 <= lo - maxSkew && hi + maxSkew < TWO63
    requires TimestampAccepted(ts, window, maxSkew)
    ensures lo - maxSkew <= ts <= hi + maxSkew
  {
    MedianInMajority(window, lo, hi);
    AcceptedBounds(ts, window, maxSkew);
    WrapSignedSmall(Median(window) - maxSkew);
    WrapSignedSmall(Median(window) + maxSkew);
  }

  /** The window after a block: its raw timestamp appended, the oldest entries dropped. */
  function NextWindow(window: seq<int64>, ts: int64, n: nat): seq<int64> {
    LastOf(window + [ts], n)
  }

  function LastOf(s: seq<int64>, n: nat): seq<int64> {
    if |s| > n then s[|s| - n..] else s
  }

  function WindowAfter(window: seq<int64>, times: seq<int64>, n: nat): seq<int64> {
    if times == [] then window
    else NextWindow(WindowAfter(window, times[..|times| - 1], n), times[|times| - 1], n)
  }

  lemma LastOfSnoc(s: seq<int64>, x: int64, n: nat)
    ensures LastOf(LastOf(s, n) + [x], n) == LastOf(s + [x], n)
  {
  }

  /** The window is always the last n of everything that was ever appended. */
  lemma {:induction false} WindowIsLastTimes(window: seq<int64>, times: seq<int64>, n: nat)
    requires |window| <= n
    ensures WindowAfter(window, times, n) == LastOf(window + times, n)
    ensures var all, w := window + times, WindowAfter(window, times, n);
      |w| == Min(|all|, n) && forall i :: 0 <= i < |w| ==> w[i] == all[|all| - |w| + i]
    decreases |times|
  {
    hide LastOf;
    LastOfMeans(window + times, n);
    if times == [] {
      assert window + times == window;
      LastOfShort(window, n);
    } else {
      var init, last := times[..|times| - 1], times[|times| - 1];
      WindowIsLastTimes(window, init, n);
      LastOfSnoc(window + init, last, n);
      AppendLast(window, times, init, last);
    }
  }

  lemma LastOfMeans(s: seq<int64>, n: nat)
    ensures |LastOf(s, n)| == Min(|s|, n)
    ensures forall i :: 0 <= i < |LastOf(s, n)| ==> LastOf(s, n)[i] == s[|s| - |LastOf(s, n)| + i]
  {
  }

  lemma LastOfShort(s: seq<int64>, n: nat)
    requires |s| <= n
    ensures LastOf(s, n) == s
  {
  }

  lemma AppendLast(window: seq<int64>, times: seq<int64>, init: seq<int64>, last: int64)
    requires times == init + [last]
    ensures window + times == window + init + [last]
  {
  }

  /** Every block of the run passes the timestamp check against the window before it. */
  ghost predicate AllAccepted(window: seq<int64>, times: seq<int64>, n: nat, maxSkew: int64) {
    forall k :: 0 <= k < |times| ==> TimestampAccepted(times[k], WindowAfter(window, times[..k], n), maxSkew)
  }

  lemma AcceptedPrefix(window: seq<int64>, times: seq<int64>, n: nat, maxSkew: int64, k: nat)
    requires AllAccepted(window, times, n, maxSkew) && k <= |times|
    ensures AllAccepted(window, times[..k], n, maxSkew)
  {
    forall j | 0 <= j < k
      ensures TimestampAccepted(times[..k][j], WindowAfter(window, times[..k][..j], n), maxSkew)
    {
      assert times[..k][..j] == times[..j];
    }
  }

  ghost predicate Within(s: seq<int64>, lo: int, hi: int) { forall x :: x in s ==> lo <= x <= hi }

  lemma AcceptedWithin(ts: int64, window: seq<int64>, maxSkew: int64, lo: int, hi: int)
    requires window != [] && Within(window, lo, hi) && maxSkew >= 0
    requires -TWO63 <= lo - maxSkew && hi + maxSkew < TWO63
    requires TimestampAccepted(ts, window, maxSkew)
    ensures lo - maxSkew <= ts <= hi + maxSkew
  {
    forall i | 0 <= i < |window|
      ensures InRange(lo, hi)(window[i])
    {
      assert window[i] in window;
    }
    CountAll(window, InRange(lo, hi));
    AcceptedNearMajority(ts, window, maxSkew, lo, hi);
  }

  lemma WindowStep(window: seq<int64>, ts: int64, n: nat, maxSkew: int64, lo: int, hi: int)
    requires window != [] && n >= 1 && Within(window, lo, hi) && maxSkew >= 0
    requires -TWO63 <= lo - maxSkew && hi + maxSkew < TWO63
    requires TimestampAccepted(ts, window, maxSkew)
    ensures NextWindow(window, ts, n) != []
    ensures Within(NextWindow(window, ts, n), lo - maxSkew, hi + maxSkew)
  {
    AcceptedWithin(ts, window, maxSkew, lo, hi);
    forall x | x in NextWindow(window, ts, n)
      ensures x in window || x == ts
    {
      assert x in window + [ts];
    }
  }

  /** After k accepted blocks no entry has drifted more than k times the allowed skew. */
  lemma {:induction false} WindowDrift(window: seq<int64>, times: seq<int64>, n: nat, maxSkew: int64, lo: int, hi: int)
    requires window != [] && n >= 1 && maxSkew >= 0
    requires Within(window, lo, hi) && AllAccepted(window, times, n, maxSkew)
    requires -TWO63 <= lo - |times| * maxSkew && hi + |times| * maxSkew < TWO63
    ensures WindowAfter(window, times, n) != []
    ensures Within(WindowAfter(window, times, n), lo - |times| * maxSkew, hi + |times| * maxSkew)
    decreases |times|
  {
    if times != [] {
      var k := |times| - 1;
      var drift := k * maxSkew;
      assert |times| * maxSkew == drift + maxSkew;
      AcceptedPrefix(window, times, n, maxSkew, k);
      WindowDrift(window, times[..k], n, maxSkew, lo, hi);
      WindowStep(WindowAfter(window, times[..k], n), times[k], n, maxSkew, lo - drift, hi + drift);
    } else {
      assert |times| * maxSkew == 0;
    }
  }
}
