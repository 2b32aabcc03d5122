/** The bounded price history and its staleness-clipped time-weighted average
    (contracts/oracle/src/lib.rs). */
module Twap {
  import opened Base

  const MAX_TWAP_OBSERVATIONS: nat := 32

  datatype Observation = Observation(price: nat, timestamp: nat)

  datatype Error = NoPriceAvailable | ArithmeticOverflow | StalePriceFeed

  // ---- the history -------------------------------------------------------------------

  ghost predicate Increasing(h: seq<Observation>) {
    forall i, j :: 0 <= i < j < |h| ==> h[i].timestamp < h[j].timestamp
  }

  /** Histories that recording can produce by time `now`. */
  ghost predicate History(h: seq<Observation>, now: nat) {
    && |h| <= MAX_TWAP_OBSERVATIONS && Increasing(h)
    && forall i :: 0 <= i < |h| ==> h[i].timestamp <= now && h[i].price <= U64_MAX
  }

  function LastOf<T>(s: seq<T>, k: nat): seq<T> { s[|s| - Min(k, |s|)..] }

  /** The history after an accepted observation: one of the same second is replaced, and all but
      the 32 most recent are forgotten. */
  function Recorded(h: seq<Observation>, o: Observation): seq<Observation> {
    LastOf(Kept(h, o.timestamp) + [o], MAX_TWAP_OBSERVATIONS)
  }

  /** Recording keeps a history a history. */
  lemma RecordedIsHistory(h: seq<Observation>, o: Observation, now: nat)
    requires History(h, now) && o.timestamp <= now && o.price <= U64_MAX
    requires h != [] ==> h[|h| - 1].timestamp <= o.timestamp
    ensures History(Recorded(h, o), now) && Recorded(h, o) != [] && Recorded(h, o)[|Recorded(h, o)| - 1] == o
  {
    var kept := Kept(h, o.timestamp);
    assert forall i :: 0 <= i < |kept| ==> kept[i] == h[i] && kept[i].timestamp < o.timestamp;
  }

  /** What recording keeps: of the observations before the new one's second, the most recent, so that there are
      32 in all if there can be; and then the new one. */
  lemma RecordedIsRecent(h: seq<Observation>, o: Observation, now: nat)
    requires History(h, now)
    requires h != [] ==> h[|h| - 1].timestamp <= o.timestamp
    ensures var r := Recorded(h, o);
            var older := if h != [] && h[|h| - 1].timestamp == o.timestamp then |h| - 1 else |h|;
            && |r| == Min(older + 1, 32) && r[|r| - 1] == o
            && (forall i :: 0 <= i < older ==> h[i].timestamp < o.timestamp)
            && forall k :: 0 <= k < |r| - 1 ==> r[k] == h[older - (|r| - 1) + k]
  {
    hide History, Increasing, Kept;
    KeptIsOlder(h, o.timestamp, now);
    var kept := Kept(h, o.timestamp);
    var all := kept + [o];
    var start := |all| - Min(32, |all|);
    assert Recorded(h, o) == all[start..];
    forall k | 0 <= k < |all| - start - 1 ensures all[start..][k] == h[start + k] {
      assert all[start..][k] == kept[start + k];
    }
  }

  lemma KeptIsOlder(h: seq<Observation>, t: nat, now: nat)
    requires History(h, now)
    requires h != [] ==> h[|h| - 1].timestamp <= t
    ensures |h| <= 32
    ensures Kept(h, t) == h[..if h != [] && h[|h| - 1].timestamp == t then |h| - 1 else |h|]
    ensures forall i :: 0 <= i < |Kept(h, t)| ==> Kept(h, t)[i] == h[i] && h[i].timestamp < t
  {
  }

  lemma HistoryIsPast(h: seq<Observation>, now: nat)
    requires History(h, now)
    ensures |h| <= MAX_TWAP_OBSERVATIONS && (h != [] ==> h[|h| - 1].timestamp <= now)
  {
  }

  /** Appends an observation unless it goes back in time. */
  method RecordPriceObservation(h: seq<Observation>, price: nat, timestamp: nat) returns (r: Result<seq<Observation>, Error>)
    requires |h| <= MAX_TWAP_OBSERVATIONS
    ensures r == if h != [] && timestamp < h[|h| - 1].timestamp then Err(StalePriceFeed)
                 else Ok(Recorded(h, Observation(price, timestamp)))
  {
    var observation := Observation(price, timestamp);
    var observations := h;
    if |h| > 0 {
      var latest := h[|h| - 1];
      if timestamp < latest.timestamp {
        return Err(StalePriceFeed);
      }
      if latest.timestamp == timestamp {
        observations := observations[|h| - 1 := observation];
        assert observations == Kept(h, timestamp) + [observation];
        return Ok(observations);
      }
    }
    if |h| == MAX_TWAP_OBSERVATIONS {
      var retained := [];
      var index := 1;
      while index < |h|
        invariant 1 <= index <= |h|
        invariant retained == h[1..index]
      {
        retained := retained + [h[index]];
        index := index + 1;
      }
      observations := retained;
    }
    assert observations + [observation] == LastOf(h + [observation], MAX_TWAP_OBSERVATIONS);
    r := Ok(observations + [observation]);
  }

  /** The history without an observation of the given second at its end. */
  function Kept(h: seq<Observation>, timestamp: nat): seq<Observation> {
    if h != [] && h[|h| - 1].timestamp == timestamp then h[..|h| - 1] else h
  }

  // ---- reference: second by second ---------------------------------------------------

  /** The price in force during second `u`: that of the latest observation no later than `u`,
      unless it has gone stale. */
  function InForce(w: seq<Observation>, maxStaleness: nat, u: nat): Option<nat> {
    if w == [] then None
    else
      var last := w[|w| - 1];
      if last.timestamp <= u then if u < last.timestamp + maxStaleness then Some(last.price) else None
      else InForce(w[..|w| - 1], maxStaleness, u)
  }

  /** Seconds before `t` with a price in force. */
  ghost function Seconds(w: seq<Observation>, maxStaleness: nat, t: nat): nat {
    if t == 0 then 0 else Seconds(w, maxStaleness, t - 1) + if InForce(w, maxStaleness, t - 1).Some? then 1 else 0
  }

  /** Sum of the prices in force over those seconds. */
  ghost function PriceSeconds(w: seq<Observation>, maxStaleness: nat, t: nat): nat {
    if t == 0 then 0 else PriceSeconds(w, maxStaleness, t - 1) + InForce(w, maxStaleness, t - 1).GetOr(0)
  }

  /** The average of the prices in force, one per second, rounded down. */
  ghost function Average(w: seq<Observation>, maxStaleness: nat, now: nat): Result<nat, Error> {
    if Seconds(w, maxStaleness, now) == 0 then Err(NoPriceAvailable)
    else Ok(PriceSeconds(w, maxStaleness, now) / Seconds(w, maxStaleness, now))
  }

  /** That is: `n` seconds at the average cost no more than was paid over them, and at one more cost more. */
  lemma AverageIsFloor(w: seq<Observation>, maxStaleness: nat, now: nat)
    ensures var n, r := Seconds(w, maxStaleness, now), Average(w, maxStaleness, now);
            if n == 0 then r == Err(NoPriceAvailable)
            else r.Ok? && r.value * n <= PriceSeconds(w, maxStaleness, now) < (r.value + 1) * n
  {
    var n := Seconds(w, maxStaleness, now);
    if n > 0 {
      QuotientFloor(PriceSeconds(w, maxStaleness, now), n);
    }
  }

  // ---- from seconds to intervals -----------------------------------------------------

  /** Which observation decides second `u`. */
  lemma {:induction false} InForceAt(w: seq<Observation>, maxStaleness: nat, u: nat, i: nat)
    requires Increasing(w) && i < |w| && w[i].timestamp <= u && (i + 1 < |w| ==> u < w[i + 1].timestamp)
    ensures InForce(w, maxStaleness, u) == if u < w[i].timestamp + maxStaleness then Some(w[i].price) else None
  {
    if i + 1 < |w| {
      assert u < w[|w| - 1].timestamp;
      InForceAt(w[..|w| - 1], maxStaleness, u, i);
    }
  }

  lemma {:induction false} NothingBefore(w: seq<Observation>, maxStaleness: nat, t: nat)
    requires forall i :: 0 <= i < |w| ==> t <= w[i].timestamp
    ensures Seconds(w, maxStaleness, t) == 0 && PriceSeconds(w, maxStaleness, t) == 0
  {
    if t > 0 {
      NothingBefore(w, maxStaleness, t - 1);
      NoneInForce(w, maxStaleness, t - 1);
    }
  }

  lemma {:induction false} NoneInForce(w: seq<Observation>, maxStaleness: nat, u: nat)
    requires forall i :: 0 <= i < |w| ==> u < w[i].timestamp
    ensures InForce(w, maxStaleness, u).None?
  {
    if w != [] {
      NoneInForce(w[..|w| - 1], maxStaleness, u);
    }
  }

  /** How long observation `i` counts before `t`. */
  function Span(o: Observation, maxStaleness: nat, t: nat): nat {
    SatSub(Min(t, o.timestamp + maxStaleness), o.timestamp)
  }

  lemma OneMoreTimes(p: nat, n: nat)
    ensures p * (n + 1) == p * n + p
  {
  }

  /** Between an observation and the next one, only it is in force. */
  lemma {:induction false} IntervalCounts(w: seq<Observation>, maxStaleness: nat, i: nat, t: nat)
    requires Increasing(w) && i < |w| && w[i].timestamp <= t && (i + 1 < |w| ==> t <= w[i + 1].timestamp)
    ensures Seconds(w, maxStaleness, t) == Seconds(w, maxStaleness, w[i].timestamp) + Span(w[i], maxStaleness, t)
    ensures PriceSeconds(w, maxStaleness, t) ==
            PriceSeconds(w, maxStaleness, w[i].timestamp) + w[i].price * Span(w[i], maxStaleness, t)
    decreases t
  {
    if w[i].timestamp < t {
      IntervalCounts(w, maxStaleness, i, t - 1);
      InForceAt(w, maxStaleness, t - 1, i);
      OneMoreTimes(w[i].price, Span(w[i], maxStaleness, t - 1));
    }
  }

  lemma {:induction false} SecondsAreFew(w: seq<Observation>, maxStaleness: nat, t: nat)
    ensures Seconds(w, maxStaleness, t) <= t
  {
    if t > 0 {
      SecondsAreFew(w, maxStaleness, t - 1);
    }
  }

  /** Prices in force before `t` within [lo, hi] confine their sum. */
  lemma {:induction false} SumConfined(w: seq<Observation>, maxStaleness: nat, t: nat, lo: nat, hi: nat)
    requires forall u :: 0 <= u < t && InForce(w, maxStaleness, u).Some? ==> lo <= InForce(w, maxStaleness, u).value <= hi
    ensures lo * Seconds(w, maxStaleness, t) <= PriceSeconds(w, maxStaleness, t) <= hi * Seconds(w, maxStaleness, t)
  {
    if t > 0 {
      SumConfined(w, maxStaleness, t - 1, lo, hi);
      var n := Seconds(w, maxStaleness, t - 1);
      OneMoreTimes(lo, n);
      OneMoreTimes(hi, n);
    }
  }

  /** The average lies between the least and the greatest price in force before now. */
  lemma AverageConfined(w: seq<Observation>, maxStaleness: nat, now: nat, lo: nat, hi: nat)
    requires forall u :: 0 <= u < now && InForce(w, maxStaleness, u).Some? ==> lo <= InForce(w, maxStaleness, u).value <= hi
    requires Average(w, maxStaleness, now).Ok?
    ensures lo <= Average(w, maxStaleness, now).value <= hi
  {
    SumConfined(w, maxStaleness, now, lo, hi);
    QuotientConfined(PriceSeconds(w, maxStaleness, now), Seconds(w, maxStaleness, now), lo, hi);
  }

  lemma QuotientConfined(x: nat, n: nat, lo: nat, hi: nat)
    requires n > 0 && lo * n <= x <= hi * n
    ensures lo <= x / n <= hi
  {
    var q := x / n;
    assert x == q * n + x % n;
    if q < lo {
      MulOrder(q, lo, n);
      assert false;
    } else if q > hi {
      MulOrder(hi, q, n);
      assert false;
    }
  }

  lemma QuotientAtLeast(x: nat, n: nat, k: nat)
    requires n > 0
    ensures k <= x / n <==> k * n <= x
  {
    var q := x / n;
    assert x == q * n + x % n;
    if k <= q {
      MulMonotone(n, k, q);
    } else {
      MulOrder(q, k, n);
    }
  }

  lemma {:induction false} InForcePriced(w: seq<Observation>, maxStaleness: nat, u: nat, hi: nat)
    requires forall i :: 0 <= i < |w| ==> w[i].price <= hi
    ensures InForce(w, maxStaleness, u).GetOr(0) <= hi
  {
    if w != [] {
      InForcePriced(w[..|w| - 1], maxStaleness, u, hi);
    }
  }

  /** 64-bit prices over 64-bit time always fit the 128-bit accumulator. */
  lemma SumFits(w: seq<Observation>, maxStaleness: nat, t: nat)
    requires t <= U64_MAX && forall i :: 0 <= i < |w| ==> w[i].price <= U64_MAX
    ensures PriceSeconds(w, maxStaleness, t) <= U64_MAX * Seconds(w, maxStaleness, t) <= U64_MAX * U64_MAX <= U128_MAX
  {
    forall u: nat | 0 <= u < t && InForce(w, maxStaleness, u).Some?
      ensures 0 <= InForce(w, maxStaleness, u).value <= U64_MAX
    {
      InForcePriced(w, maxStaleness, u, U64_MAX);
    }
    SumConfined(w, maxStaleness, t, 0, U64_MAX);
    SecondsAreFew(w, maxStaleness, t);
  }

  // ---- the implementation ------------------------------------------------------------

  /** Where the part of time decided by the first `i` observations ends. */
  function Boundary(w: seq<Observation>, now: nat, i: nat): nat {
    if i < |w| then Min(now, w[i].timestamp) else now
  }

  /** How long observation `i` was in force before `now`, by the clipping of the loop. */
  function Duration(w: seq<Observation>, now: nat, maxStaleness: nat, i: nat): nat
    requires i < |w|
  {
    var next := if i + 1 < |w| then w[i + 1].timestamp else now;
    SatSub(Min(Min(next, now), SatAdd(w[i].timestamp, maxStaleness, U64_MAX)), w[i].timestamp)
  }

  lemma StepCounts(w: seq<Observation>, now: nat, maxStaleness: nat, i: nat)
    requires Increasing(w) && i < |w| && now <= U64_MAX
    ensures Seconds(w, maxStaleness, Boundary(w, now, i + 1)) ==
            Seconds(w, maxStaleness, Boundary(w, now, i)) + Duration(w, now, maxStaleness, i)
    ensures PriceSeconds(w, maxStaleness, Boundary(w, now, i + 1)) ==
            PriceSeconds(w, maxStaleness, Boundary(w, now, i)) + w[i].price * Duration(w, now, maxStaleness, i)
  {
    var until := Boundary(w, now, i + 1);
    if w[i].timestamp <= until {
      IntervalCounts(w, maxStaleness, i, until);
      assert Duration(w, now, maxStaleness, i) == Span(w[i], maxStaleness, until);
    } else {
      assert Duration(w, now, maxStaleness, i) == 0;
    }
  }

  lemma TotalsFit(w: seq<Observation>, maxStaleness: nat, t: nat)
    requires t <= U64_MAX && forall i :: 0 <= i < |w| ==> w[i].price <= U64_MAX
    ensures PriceSeconds(w, maxStaleness, t) <= U128_MAX && Seconds(w, maxStaleness, t) <= U64_MAX
  {
    SumFits(w, maxStaleness, t);
    SecondsAreFew(w, maxStaleness, t);
  }

  /** The final division, with its 64-bit check. */
  function Quotient(weighted: nat, total: nat): Result<nat, Error> {
    if total == 0 then Err(NoPriceAvailable)
    else if weighted / total > U64_MAX then Err(ArithmeticOverflow)
    else Ok(weighted / total)
  }

  /** The 64-bit check never fires. */
  lemma QuotientIsAverage(w: seq<Observation>, maxStaleness: nat, now: nat)
    requires now <= U64_MAX && forall i :: 0 <= i < |w| ==> w[i].price <= U64_MAX
    ensures Quotient(PriceSeconds(w, maxStaleness, now), Seconds(w, maxStaleness, now)) == Average(w, maxStaleness, now)
  {
    SumFits(w, maxStaleness, now);
    if Seconds(w, maxStaleness, now) > 0 {
      QuotientConfined(PriceSeconds(w, maxStaleness, now), Seconds(w, maxStaleness, now), 0, U64_MAX);
    }
  }

  lemma DurationInWindow(h: seq<Observation>, k: nat, now: nat, maxStaleness: nat, index: nat)
    requires SatSub(|h|, k) <= index < |h|
    ensures var i := index - SatSub(|h|, k);
            && |LastOf(h, k)| == |h| - SatSub(|h|, k) && LastOf(h, k)[i] == h[index]
            && Duration(h, now, maxStaleness, index) == Duration(LastOf(h, k), now, maxStaleness, i)
  {
  }

  lemma BoundaryIsPast(w: seq<Observation>, now: nat, i: nat)
    ensures Boundary(w, now, i) <= now
  {
  }

  /** One iteration over the window of the last `k` observations. */
  lemma LoopStep(h: seq<Observation>, k: nat, now: nat, maxStaleness: nat, index: nat)
    requires Increasing(h) && now <= U64_MAX && forall i :: 0 <= i < |h| ==> h[i].price <= U64_MAX
    requires SatSub(|h|, k) <= index < |h|
    ensures var w, i := LastOf(h, k), index - SatSub(|h|, k);
            var d := Duration(h, now, maxStaleness, index);
            && Seconds(w, maxStaleness, Boundary(w, now, i + 1)) == Seconds(w, maxStaleness, Boundary(w, now, i)) + d <= U64_MAX
            && PriceSeconds(w, maxStaleness, Boundary(w, now, i + 1)) ==
               PriceSeconds(w, maxStaleness, Boundary(w, now, i)) + h[index].price * d <= U128_MAX
  {
    hide Seconds, PriceSeconds, Duration, Increasing, Boundary;
    var w, i := LastOf(h, k), index - SatSub(|h|, k);
    IncreasingSuffix(h, k);
    DurationInWindow(h, k, now, maxStaleness, index);
    BoundaryIsPast(w, now, i + 1);
    StepCounts(w, now, maxStaleness, i);
    TotalsFit(w, maxStaleness, Boundary(w, now, i + 1));
  }

  lemma NoAverage(maxStaleness: nat, now: nat)
    ensures Average([], maxStaleness, now) == Err(NoPriceAvailable)
  {
    NothingBefore([], maxStaleness, now);
  }

  lemma IncreasingSuffix(h: seq<Observation>, k: nat)
    requires Increasing(h)
    ensures Increasing(LastOf(h, k))
    ensures LastOf(h, k) != [] ==> forall i :: 0 <= i < |LastOf(h, k)| ==> LastOf(h, k)[0].timestamp <= LastOf(h, k)[i].timestamp
  {
  }

  /** Weighs the last `observationCount` observations by how long each was in force. Over any
      64-bit history with increasing timestamps no checked operation fails, and the result is the
      per-second average. */
  method CalculateTwap(h: seq<Observation>, now: nat, observationCount: nat, maxStaleness: nat) returns (r: Result<nat, Error>)
    requires Increasing(h) && now <= U64_MAX
    requires forall i :: 0 <= i < |h| ==> h[i].price <= U64_MAX
    ensures r == Average(LastOf(h, observationCount), maxStaleness, now)
    ensures var w := LastOf(h, observationCount);
            var n := Seconds(w, maxStaleness, now);
            if n == 0 then r == Err(NoPriceAvailable)
            else r.Ok? && r.value * n <= PriceSeconds(w, maxStaleness, now) < (r.value + 1) * n
  {
    hide Seconds, PriceSeconds, Increasing, Average, Quotient, Duration;
    ghost var w := LastOf(h, observationCount);
    IncreasingSuffix(h, observationCount);
    if w == [] {
      NoAverage(maxStaleness, now);
      NothingBefore(w, maxStaleness, now);
    } else {
      NothingBefore(w, maxStaleness, Boundary(w, now, 0));
    }
    if |h| == 0 {
      return Err(NoPriceAvailable);
    }
    var first := SatSub(|h|, observationCount);
    var weighted, total, index := 0, 0, first;
    while index < |h|
      invariant first <= index <= |h|
      invariant total == Seconds(w, maxStaleness, Boundary(w, now, index - first))
      invariant weighted == PriceSeconds(w, maxStaleness, Boundary(w, now, index - first))
    {
      var duration := Duration(h, now, maxStaleness, index);
      var area := h[index].price * duration;
      LoopStep(h, observationCount, now, maxStaleness, index);
      if area > U128_MAX || weighted + area > U128_MAX || total + duration > U64_MAX {
        assert false;  // the intervals are disjoint, so the sums stay within the per-second totals
      }
      weighted := weighted + area;
      total := total + duration;
      index := index + 1;
    }
    QuotientIsAverage(w, maxStaleness, now);
    AverageIsFloor(w, maxStaleness, now);
    r := Quotient(weighted, total);
  }
}
