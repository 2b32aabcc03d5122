/** The oracle's feeder set, its legacy price scalar, its configuration and the two price views
    (contracts/oracle/src/lib.rs). */
module Oracle {
  import opened Base
  import opened Median
  import opened Rbac
  import Twap

  const MAX_SUBMITTERS: nat := 32

  datatype Role = Admin | PriceFeeder | Pauser

  datatype Error =
    | LastAdmin | OracleStalePrice | OracleNotConfigured | InvalidPrice | OracleLocked | NotAuthorized | NoPriceAvailable
    | ArithmeticOverflow | InvalidDecimals | ContractPaused | InvalidMaxStaleness | TooManySubmitters
    | PriceExceedsMaxPrice | SubmitTooSoon | InvalidMinSubmitters | InsufficientQuorum | StalePriceFeed
    | ExcessivePriceDeviation | InvalidObservationCount | OracleDeviationTooHigh

  datatype PriceData = PriceData(price: nat, updatedAt: nat)

  datatype OracleConfig = OracleConfig(decimals: nat, assetPeg: nat, maxStaleness: nat, maxPrice: nat,
                                       minSubmitInterval: nat, minSubmitters: nat)

  datatype ConfigUpdate = ConfigUpdate(decimals: Option<nat>, assetPeg: Option<nat>, maxStaleness: Option<nat>,
                                       maxPrice: Option<nat>, minSubmitInterval: Option<nat>, minSubmitters: Option<nat>,
                                       maxDeviationBps: Option<nat>, quoteCurrency: Option<string>)

  datatype PriceStatus = PriceStatus(freshSubmitterCount: nat, minSubmitters: nat, newestAge: nat, oldestFreshAge: nat, stale: bool)

  type Submissions = map<Address, PriceData>

  // ---- what the feeder set says ------------------------------------------------------

  predicate Fresh(d: PriceData, maxStaleness: nat, now: nat) {
    SatSub(now, d.updatedAt) <= maxStaleness && d.price != 0
  }

  /** Prices of the fresh submissions, in roster order. */
  function FreshPrices(roster: seq<Address>, subs: Submissions, maxStaleness: nat, now: nat): seq<nat> {
    if roster == [] then []
    else
      var a := roster[|roster| - 1];
      FreshPrices(roster[..|roster| - 1], subs, maxStaleness, now)
      + if a in subs && Fresh(subs[a], maxStaleness, now) then [subs[a].price] else []
  }

  /** Their ages, in the same order. */
  function FreshAges(roster: seq<Address>, subs: Submissions, maxStaleness: nat, now: nat): seq<nat> {
    if roster == [] then []
    else
      var a := roster[|roster| - 1];
      FreshAges(roster[..|roster| - 1], subs, maxStaleness, now)
      + if a in subs && Fresh(subs[a], maxStaleness, now) then [SatSub(now, subs[a].updatedAt)] else []
  }

  /** The accounts whose submission is positive and not older than the limit. */
  ghost function FreshFeeders(roster: seq<Address>, subs: Submissions, maxStaleness: nat, now: nat): set<Address> {
    set a | a in roster && a in subs && 0 < subs[a].price && now <= subs[a].updatedAt + maxStaleness
  }

  ghost function PricedAt(feeders: set<Address>, subs: Submissions, p: nat): set<Address> {
    set a | a in feeders && a in subs && subs[a].price == p
  }

  /** `s` holds the price of each feeder in `feeders`, in some order, and nothing else. */
  ghost predicate PricesOf(s: seq<nat>, feeders: set<Address>, subs: Submissions) {
    |s| == |feeders| && forall p: nat :: multiset(s)[p] == |PricedAt(feeders, subs, p)|
  }

  lemma PricedAtOneMore(feeders: set<Address>, subs: Submissions, a: Address, p: nat)
    requires a in subs && a !in feeders
    ensures |PricedAt(feeders + {a}, subs, p)| == |PricedAt(feeders, subs, p)| + if subs[a].price == p then 1 else 0
  {
    var before := PricedAt(feeders, subs, p);
    assert PricedAt(feeders + {a}, subs, p) == if subs[a].price == p then before + {a} else before;
  }

  lemma PricesOfOneMore(s: seq<nat>, feeders: set<Address>, subs: Submissions, a: Address)
    requires PricesOf(s, feeders, subs) && a in subs && a !in feeders
    ensures PricesOf(s + [subs[a].price], feeders + {a}, subs)
  {
    hide PricedAt;
    assert |feeders + {a}| == |feeders| + 1;
    forall p: nat ensures multiset(s + [subs[a].price])[p] == |PricedAt(feeders + {a}, subs, p)| {
      PricedAtOneMore(feeders, subs, a, p);
      assert multiset(s)[p] == |PricedAt(feeders, subs, p)|;
    }
  }

  lemma FreshFeedersStep(roster: seq<Address>, last: Address, subs: Submissions, maxStaleness: nat, now: nat)
    ensures FreshFeeders(roster + [last], subs, maxStaleness, now) ==
            if last in subs && Fresh(subs[last], maxStaleness, now) then FreshFeeders(roster, subs, maxStaleness, now) + {last}
            else FreshFeeders(roster, subs, maxStaleness, now)
  {
  }

  lemma NobodyPriced(subs: Submissions)
    ensures PricesOf([], {}, subs)
  {
    forall p: nat ensures |PricedAt({}, subs, p)| == 0 {
      assert PricedAt({}, subs, p) == {};
    }
  }

  /** The fresh prices are those of the fresh feeders. */
  lemma {:induction false} FreshPricesAre(roster: seq<Address>, subs: Submissions, maxStaleness: nat, now: nat)
    requires NoDuplicates(roster)
    ensures PricesOf(FreshPrices(roster, subs, maxStaleness, now), FreshFeeders(roster, subs, maxStaleness, now), subs)
  {
    hide PricesOf, NoDuplicates;
    if roster == [] {
      NobodyPriced(subs);
      assert FreshFeeders(roster, subs, maxStaleness, now) == {};
    } else {
      var rest, last := roster[..|roster| - 1], roster[|roster| - 1];
      assert roster == rest + [last];
      LastIsNew(roster);
      FreshPricesAre(rest, subs, maxStaleness, now);
      FreshFeedersStep(rest, last, subs, maxStaleness, now);
      assert FreshPrices(rest, subs, maxStaleness, now) + [] == FreshPrices(rest, subs, maxStaleness, now);
      if last in subs && Fresh(subs[last], maxStaleness, now) {
        PricesOfOneMore(FreshPrices(rest, subs, maxStaleness, now), FreshFeeders(rest, subs, maxStaleness, now), subs, last);
      }
    }
  }

  lemma {:induction false} FewFresh(roster: seq<Address>, subs: Submissions, maxStaleness: nat, now: nat)
    ensures |FreshPrices(roster, subs, maxStaleness, now)| <= |roster|
  {
    if roster != [] {
      FewFresh(roster[..|roster| - 1], subs, maxStaleness, now);
    }
  }

  /** The fresh ages are those of the fresh feeders. */
  lemma {:induction false} FreshAgesAre(roster: seq<Address>, subs: Submissions, maxStaleness: nat, now: nat)
    ensures forall x :: x in FreshAges(roster, subs, maxStaleness, now) <==>
              exists a :: a in FreshFeeders(roster, subs, maxStaleness, now) && x == SatSub(now, subs[a].updatedAt)
  {
    if roster != [] {
      var rest, last := roster[..|roster| - 1], roster[|roster| - 1];
      FreshAgesAre(rest, subs, maxStaleness, now);
      assert roster == rest + [last];
      FreshFeedersStep(rest, last, subs, maxStaleness, now);
    }
  }

  function Least(s: seq<nat>): nat {
    if s == [] then 0 else if |s| == 1 then s[0] else Min(Least(s[..|s| - 1]), s[|s| - 1])
  }

  function Greatest(s: seq<nat>): nat {
    if s == [] then 0 else if |s| == 1 then s[0] else Max(Greatest(s[..|s| - 1]), s[|s| - 1])
  }

  lemma {:induction false} ExtremesBound(s: seq<nat>)
    ensures forall i :: 0 <= i < |s| ==> Least(s) <= s[i] <= Greatest(s)
    ensures s != [] ==> Least(s) in s && Greatest(s) in s
  {
    if |s| > 1 {
      var n := |s| - 1;
      ExtremesBound(s[..n]);
      assert s == s[..n] + [s[n]];
    }
  }

  lemma NoAges(subs: Submissions, maxStaleness: nat, now: nat)
    ensures FreshAges([], subs, maxStaleness, now) == [] && Least([]) == 0 && Greatest([]) == 0
  {
  }

  lemma ExtremesStep(s: seq<nat>, x: nat)
    ensures Least(s + [x]) == if s == [] then x else Min(Least(s), x)
    ensures Greatest(s + [x]) == if s == [] then x else Max(Greatest(s), x)
  {
    assert (s + [x])[..|s|] == s;
  }

  lemma AgesStep(roster: seq<Address>, i: nat, subs: Submissions, maxStaleness: nat, now: nat)
    requires i < |roster|
    ensures FreshAges(roster[..i + 1], subs, maxStaleness, now) ==
            if roster[i] in subs && Fresh(subs[roster[i]], maxStaleness, now)
            then FreshAges(roster[..i], subs, maxStaleness, now) + [SatSub(now, subs[roster[i]].updatedAt)]
            else FreshAges(roster[..i], subs, maxStaleness, now)
  {
    assert roster[..i + 1][..i] == roster[..i];
    assert FreshAges(roster[..i], subs, maxStaleness, now) + [] == FreshAges(roster[..i], subs, maxStaleness, now);
  }

  lemma {:induction false} AgesMatchPrices(roster: seq<Address>, subs: Submissions, maxStaleness: nat, now: nat)
    ensures |FreshAges(roster, subs, maxStaleness, now)| == |FreshPrices(roster, subs, maxStaleness, now)|
    ensures forall i :: 0 <= i < |FreshAges(roster, subs, maxStaleness, now)| ==> FreshAges(roster, subs, maxStaleness, now)[i] <= maxStaleness
  {
    if roster != [] {
      AgesMatchPrices(roster[..|roster| - 1], subs, maxStaleness, now);
    }
  }

  /** Newest submission, the earliest in the roster among equally new ones. */
  function Latest(roster: seq<Address>, subs: Submissions): Option<PriceData> {
    if roster == [] then None
    else
      var earlier, a := Latest(roster[..|roster| - 1], subs), roster[|roster| - 1];
      if a in subs && (earlier.None? || subs[a].updatedAt > earlier.value.updatedAt) then Some(subs[a]) else earlier
  }

  lemma NoLatest(subs: Submissions)
    ensures Latest([], subs) == None
  {
  }

  /** `p` is one of the submissions, and none is newer. */
  ghost predicate IsNewest(p: PriceData, subs: Submissions) {
    && (exists a :: a in subs && subs[a] == p)
    && forall a :: a in subs ==> subs[a].updatedAt <= p.updatedAt
  }

  lemma {:induction false} LatestIsNewest(roster: seq<Address>, subs: Submissions)
    requires forall a :: a in roster ==> a in subs
    ensures Latest(roster, subs).None? <==> roster == []
    ensures roster != [] ==>
              var p := Latest(roster, subs).value;
              && (exists a :: a in roster && subs[a] == p) && (forall a :: a in roster ==> subs[a].updatedAt <= p.updatedAt)
              && exists i: nat :: FirstNewest(roster, subs, i) && p == subs[roster[i]]
  {
    if roster != [] {
      var n := |roster| - 1;
      assert roster == roster[..n] + [roster[n]];
      LatestIsNewest(roster[..n], subs);
      assert roster[n] in roster;
      if n == 0 || subs[roster[n]].updatedAt > Latest(roster[..n], subs).value.updatedAt {
        assert FirstNewest(roster, subs, n);
      } else {
        var i: nat :| FirstNewest(roster[..n], subs, i) && Latest(roster[..n], subs).value == subs[roster[..n][i]];
        assert FirstNewest(roster, subs, i);
      }
    }
  }

  /** No submission is newer than the `i`-th feeder's, and those of the feeders before it are older. */
  ghost predicate FirstNewest(roster: seq<Address>, subs: Submissions, i: nat) {
    && i < |roster| && (forall k :: 0 <= k < |roster| ==> roster[k] in subs)
    && (forall k :: 0 <= k < |roster| ==> subs[roster[k]].updatedAt <= subs[roster[i]].updatedAt)
    && forall k :: 0 <= k < i ==> subs[roster[k]].updatedAt < subs[roster[i]].updatedAt
  }

  // ---- the two views as functions of the state ----------------------------------------

  function StatusOf(config: Option<OracleConfig>, roster: seq<Address>, subs: Submissions, now: nat): Result<nat, Error> {
    if config.None? then Err(OracleNotConfigured)
    else if roster == [] then Err(NoPriceAvailable)
    else Ok(|FreshPrices(roster, subs, config.value.maxStaleness, now)|)
  }

  ghost function ReadOf(config: Option<OracleConfig>, roster: seq<Address>, subs: Submissions, h: seq<Twap.Observation>,
                        observationCount: nat, now: nat): Result<nat, Error> {
    if !(1 <= observationCount <= Twap.MAX_TWAP_OBSERVATIONS) then Err(InvalidObservationCount)
    else if config.None? then Err(OracleNotConfigured)
    else
      var live := FreshPrices(roster, subs, config.value.maxStaleness, now);
      if roster == [] then Err(NoPriceAvailable)
      else if live == [] then Err(OracleStalePrice)
      else if |live| < config.value.minSubmitters then Err(InsufficientQuorum)
      else
        var average := Twap.Average(Twap.LastOf(h, observationCount), config.value.maxStaleness, now);
        Ok(if average.Ok? then average.value else MedianOf(live))
  }

  /** The status view and the price read classify every state alike. */
  lemma ViewsAgree(config: Option<OracleConfig>, roster: seq<Address>, subs: Submissions, h: seq<Twap.Observation>, count: nat, now: nat)
    requires 1 <= count <= Twap.MAX_TWAP_OBSERVATIONS
    ensures var status, read := StatusOf(config, roster, subs, now), ReadOf(config, roster, subs, h, count, now);
            && (status.Err? ==> read == Err(status.error))
            && (status.Ok? ==>
                  && (read == Err(OracleStalePrice) <==> status.value == 0)
                  && (read == Err(InsufficientQuorum) <==> 0 < status.value < config.value.minSubmitters)
                  && (read.Ok? <==> status.value > 0 && status.value >= config.value.minSubmitters)
                  && read != Err(NoPriceAvailable) && read != Err(ArithmeticOverflow))
  {
  }

  /** A full read is bounded by the recorded prices and the fresh submissions. */
  lemma ReadConfined(config: Option<OracleConfig>, roster: seq<Address>, subs: Submissions, h: seq<Twap.Observation>, count: nat, now: nat, lo: nat, hi: nat)
    requires ReadOf(config, roster, subs, h, count, now).Ok?
    requires forall i :: 0 <= i < |h| ==> lo <= h[i].price <= hi
    requires forall a :: a in subs && Fresh(subs[a], config.value.maxStaleness, now) ==> lo <= subs[a].price <= hi
    ensures lo <= ReadOf(config, roster, subs, h, count, now).value <= hi
  {
    var w := Twap.LastOf(h, count);
    var s := config.value.maxStaleness;
    if Twap.Average(w, s, now).Ok? {
      forall u: nat | 0 <= u < now && Twap.InForce(w, s, u).Some?
        ensures lo <= Twap.InForce(w, s, u).value <= hi
      {
        InForceWithin(w, s, u, lo, hi);
      }
      Twap.AverageConfined(w, s, now, lo, hi);
    } else {
      var live := FreshPrices(roster, subs, s, now);
      FreshWithin(roster, subs, s, now, lo, hi);
      AllCounted(live, lo, hi);
      MajorityConfines(live, lo, hi);
    }
  }

  /** What a price read must answer: over the seconds of the window with a price in force, the floor of their
      average; without such a second, the middle of the fresh prices in order. */
  ghost predicate Priced(answer: nat, window: seq<Twap.Observation>, feeders: set<Address>, subs: Submissions, maxStaleness: nat, now: nat) {
    var n := Twap.Seconds(window, maxStaleness, now);
    if n > 0 then answer * n <= Twap.PriceSeconds(window, maxStaleness, now) < (answer + 1) * n
    else exists s :: Sorted(s) && PricesOf(s, feeders, subs) && IsMiddle(answer, s)
  }

  lemma ReadIsPriced(config: Option<OracleConfig>, roster: seq<Address>, subs: Submissions, h: seq<Twap.Observation>, count: nat, now: nat)
    requires NoDuplicates(roster) && ReadOf(config, roster, subs, h, count, now).Ok?
    ensures var c := config.value;
            Priced(ReadOf(config, roster, subs, h, count, now).value, Twap.LastOf(h, count),
                   FreshFeeders(roster, subs, c.maxStaleness, now), subs, c.maxStaleness, now)
  {
    hide FreshPrices, FreshFeeders, SortedOf, MedianOf;
    var limit := config.value.maxStaleness;
    var live := FreshPrices(roster, subs, limit, now);
    Twap.AverageIsFloor(Twap.LastOf(h, count), limit, now);
    FreshPricesAre(roster, subs, limit, now);
    SortedOfSorts(live);
    MedianIsMiddle(live, SortedOf(live));
    assert PricesOf(SortedOf(live), FreshFeeders(roster, subs, limit, now), subs);
  }

  /** 100 counts for two seconds and 140 for one. */
  lemma AverageOfThreeSeconds()
    ensures Twap.Average([Twap.Observation(100, 1), Twap.Observation(140, 3)], 10, 4) == Ok(113)
  {
    hide Twap.Seconds, Twap.PriceSeconds;
    var h := [Twap.Observation(100, 1), Twap.Observation(140, 3)];
    Twap.NothingBefore(h, 10, 1);
    Twap.IntervalCounts(h, 10, 0, 3);
    Twap.IntervalCounts(h, 10, 1, 4);
  }

  lemma OneFresh(a: Address)
    ensures FreshPrices([a], map[a := PriceData(140, 3)], 10, 4) == [140]
  {
    assert [a][..0] == [];
  }

  /** With these two observations and one feeder, a read answers 113, not the feeder's 140. */
  lemma ReadAverages(a: Address)
    ensures var h := [Twap.Observation(100, 1), Twap.Observation(140, 3)];
            ReadOf(Some(OracleConfig(0, 0, 10, 0, 0, 1)), [a], map[a := PriceData(140, 3)], h, 32, 4) == Ok(113)
  {
    hide FreshPrices, Twap.Average, MedianOf;
    var h := [Twap.Observation(100, 1), Twap.Observation(140, 3)];
    assert Twap.LastOf(h, 32) == h;
    OneFresh(a);
    AverageOfThreeSeconds();
  }

  lemma {:induction false} InForceWithin(w: seq<Twap.Observation>, s: nat, u: nat, lo: nat, hi: nat)
    requires forall i :: 0 <= i < |w| ==> lo <= w[i].price <= hi
    ensures Twap.InForce(w, s, u).Some? ==> lo <= Twap.InForce(w, s, u).value <= hi
  {
    if w != [] {
      InForceWithin(w[..|w| - 1], s, u, lo, hi);
    }
  }

  lemma {:induction false} FreshWithin(roster: seq<Address>, subs: Submissions, s: nat, now: nat, lo: nat, hi: nat)
    requires forall a :: a in subs && Fresh(subs[a], s, now) ==> lo <= subs[a].price <= hi
    ensures forall i :: 0 <= i < |FreshPrices(roster, subs, s, now)| ==> lo <= FreshPrices(roster, subs, s, now)[i] <= hi
  {
    if roster != [] {
      FreshWithin(roster[..|roster| - 1], subs, s, now, lo, hi);
    }
  }

  lemma {:induction false} AllCounted(v: seq<nat>, lo: nat, hi: nat)
    requires forall i :: 0 <= i < |v| ==> lo <= v[i] <= hi
    ensures CountIn(v, lo, hi) == |v|
  {
    if v != [] {
      AllCounted(v[..|v| - 1], lo, hi);
    }
  }

  // ---- configuration -----------------------------------------------------------------

  predicate Sound(c: OracleConfig) {
    c.decimals <= 19 && c.maxStaleness > 0 && 1 <= c.minSubmitters <= MAX_SUBMITTERS
  }

  /** Why a configuration is refused, if it is. */
  function ConfigRefusal(c: OracleConfig): (r: Option<Error>)
    ensures r.None? <==> Sound(c)
    ensures r == Some(InvalidDecimals) ==> c.decimals > 19
    ensures r == Some(InvalidMaxStaleness) ==> c.maxStaleness == 0
    ensures r == Some(InvalidMinSubmitters) ==> !(1 <= c.minSubmitters <= 32)
    ensures r in {None, Some(InvalidDecimals), Some(InvalidMaxStaleness), Some(InvalidMinSubmitters)}
  {
    if c.decimals > 19 then Some(InvalidDecimals)
    else if c.maxStaleness == 0 then Some(InvalidMaxStaleness)
    else if c.minSubmitters == 0 || c.minSubmitters > MAX_SUBMITTERS then Some(InvalidMinSubmitters)
    else None
  }

  /** Stored prices would no longer mean what they did. */
  predicate Rescales(before: Option<OracleConfig>, after: OracleConfig) {
    before.Some? && (before.value.decimals != after.decimals || before.value.assetPeg != after.assetPeg)
  }

  /** The supplied fields replace those of `c`. */
  function Updated(c: OracleConfig, update: ConfigUpdate): OracleConfig {
    OracleConfig(update.decimals.GetOr(c.decimals), update.assetPeg.GetOr(c.assetPeg), update.maxStaleness.GetOr(c.maxStaleness),
                 update.maxPrice.GetOr(c.maxPrice), update.minSubmitInterval.GetOr(c.minSubmitInterval), update.minSubmitters.GetOr(c.minSubmitters))
  }

  // ---- submission checks -------------------------------------------------------------

  /** Relative change from the last price, in basis points. */
  function Deviation(price: nat, last: nat): nat
    requires last > 0
  {
    (if price >= last then price - last else last - price) * 10_000 / last
  }

  /** The checks of a submission, in order, that do not depend on the roster being full. */
  function Refusal(price: nat, caller: Address, paused: bool, authorized: bool, last: Option<PriceData>,
                   config: Option<OracleConfig>, maxDeviationBps: nat, subs: Submissions, now: nat): Option<Error> {
    if paused then Some(ContractPaused)
    else if !authorized then Some(NotAuthorized)
    else if price == 0 then Some(InvalidPrice)
    else
      var deviation := if last.Some? && last.value.price > 0 then Some(Deviation(price, last.value.price)) else None;
      if deviation.GetOr(0) > 5_000 then Some(OracleDeviationTooHigh)
      else if config.None? then None
      else if config.value.maxPrice != 0 && price > config.value.maxPrice then Some(PriceExceedsMaxPrice)
      else if maxDeviationBps > 0 && deviation.GetOr(0) > maxDeviationBps then Some(ExcessivePriceDeviation)
      else if config.value.minSubmitInterval > 0 && caller in subs
              && SatSub(now, subs[caller].updatedAt) < config.value.minSubmitInterval then Some(SubmitTooSoon)
      else None
  }

  function Gap(a: nat, b: nat): nat { if a >= b then a - b else b - a }

  lemma DeviationExceeds(price: nat, last: nat, bps: nat)
    requires last > 0
    ensures Deviation(price, last) > bps <==> 10_000 * Gap(price, last) >= (bps + 1) * last
  {
    Twap.QuotientAtLeast(Gap(price, last) * 10_000, last, bps + 1);
  }

  /** The first check to fail, in plain terms, names the error. */
  lemma RefusalIs(price: nat, caller: Address, paused: bool, authorized: bool, last: Option<PriceData>,
                  config: Option<OracleConfig>, maxDeviationBps: nat, subs: Submissions, now: nat)
    ensures Refusal(price, caller, paused, authorized, last, config, maxDeviationBps, subs, now) ==
            if paused then Some(ContractPaused)
            else if !authorized then Some(NotAuthorized)
            else if price == 0 then Some(InvalidPrice)
            else if last.Some? && last.value.price > 0 && 10_000 * Gap(price, last.value.price) >= 5_001 * last.value.price
            then Some(OracleDeviationTooHigh)
            else if config.Some? && config.value.maxPrice > 0 && price > config.value.maxPrice then Some(PriceExceedsMaxPrice)
            else if config.Some? && maxDeviationBps > 0 && last.Some? && last.value.price > 0
                    && 10_000 * Gap(price, last.value.price) >= (maxDeviationBps + 1) * last.value.price
            then Some(ExcessivePriceDeviation)
            else if config.Some? && config.value.minSubmitInterval > 0 && caller in subs
                    && SatSub(now, subs[caller].updatedAt) < config.value.minSubmitInterval then Some(SubmitTooSoon)
            else None
  {
    hide Deviation, Gap;
    if last.Some? && last.value.price > 0 {
      DeviationExceeds(price, last.value.price, 5_000);
      DeviationExceeds(price, last.value.price, maxDeviationBps);
    }
  }

  /** What a submission must meet: the feeder's role on a running contract, and a positive price within 50 (that is,
      50.01) per cent of the last one, under the configured ceiling, deviation and pace. */
  ghost predicate Acceptable(price: nat, caller: Address, paused: bool, authorized: bool, last: Option<PriceData>,
                             config: Option<OracleConfig>, maxDeviationBps: nat, subs: Submissions, now: nat) {
    && !paused && authorized && price > 0
    && (last.Some? && last.value.price > 0 ==>
          && 10_000 * Gap(price, last.value.price) < 5_001 * last.value.price
          && (config.Some? && maxDeviationBps > 0 ==>
                10_000 * Gap(price, last.value.price) < (maxDeviationBps + 1) * last.value.price))
    && (config.Some? && config.value.maxPrice > 0 ==> price <= config.value.maxPrice)
    && (config.Some? && caller in subs ==> subs[caller].updatedAt + config.value.minSubmitInterval <= now)
  }

  /** The checks pass exactly then. */
  lemma AcceptedIff(price: nat, caller: Address, paused: bool, authorized: bool, last: Option<PriceData>,
                    config: Option<OracleConfig>, maxDeviationBps: nat, subs: Submissions, now: nat)
    requires caller in subs ==> subs[caller].updatedAt <= now
    ensures Refusal(price, caller, paused, authorized, last, config, maxDeviationBps, subs, now).None? <==>
            Acceptable(price, caller, paused, authorized, last, config, maxDeviationBps, subs, now)
    ensures Refusal(price, caller, paused, authorized, last, config, maxDeviationBps, subs, now).None? ==> price > 0
  {
    hide Refusal, Gap;
    RefusalIs(price, caller, paused, authorized, last, config, maxDeviationBps, subs, now);
  }

  /** What the 50 per cent rule refuses, exactly: the rounded-down comparison lets a change of up to
      (but not including) 50.01 per cent through. */
  lemma DeviationRule(price: nat, caller: Address, last: PriceData, config: Option<OracleConfig>, maxDeviationBps: nat, subs: Submissions, now: nat)
    requires price > 0 && last.price > 0
    ensures Refusal(price, caller, false, true, Some(last), config, maxDeviationBps, subs, now) == Some(OracleDeviationTooHigh) <==>
            10_000 * Gap(price, last.price) >= 5_001 * last.price
  {
    hide Refusal, Gap;
    RefusalIs(price, caller, false, true, Some(last), config, maxDeviationBps, subs, now);
  }

  /** A price rising from 100000 to 150009 moved by more than half and is let through. */
  lemma JumpPasses(caller: Address, now: nat)
    ensures (150_009 - 100_000) * 2 > 100_000
    ensures Refusal(150_009, caller, false, true, Some(PriceData(100_000, now)), None, 0, map[], now) == None
  {
  }

  /** What gets sampled into the history: the median of the fresh submissions once configured. */
  ghost function Aggregate(config: Option<OracleConfig>, roster: seq<Address>, subs: Submissions, price: nat, now: nat): nat {
    if config.None? then price
    else
      var live := FreshPrices(roster, subs, config.value.maxStaleness, now);
      if live == [] then price else MedianOf(live)
  }

  /** So it is the submitted price without a configuration or a fresh feeder, and otherwise the middle of the fresh
      prices in order; a majority of these within bounds keeps it within them. */
  lemma SampleIs(config: Option<OracleConfig>, roster: seq<Address>, subs: Submissions, price: nat, now: nat, lo: nat, hi: nat)
    requires NoDuplicates(roster)
    ensures var sample := Aggregate(config, roster, subs, price, now);
            if config.None? || FreshFeeders(roster, subs, config.value.maxStaleness, now) == {} then sample == price
            else
              var feeders := FreshFeeders(roster, subs, config.value.maxStaleness, now);
              && (exists s :: Sorted(s) && PricesOf(s, feeders, subs) && IsMiddle(sample, s))
              && (2 * CountIn(FreshPrices(roster, subs, config.value.maxStaleness, now), lo, hi) > |feeders| ==> lo <= sample <= hi)
  {
    hide FreshPrices, FreshFeeders, SortedOf, MedianOf, CountIn;
    if config.Some? {
      var limit := config.value.maxStaleness;
      var live := FreshPrices(roster, subs, limit, now);
      FreshPricesAre(roster, subs, limit, now);
      if live != [] {
        SortedOfSorts(live);
        MedianIsMiddle(live, SortedOf(live));
        assert PricesOf(SortedOf(live), FreshFeeders(roster, subs, limit, now), subs);
        if 2 * CountIn(live, lo, hi) > |live| {
          MajorityConfines(live, lo, hi);
        }
      }
    }
  }

  /** The roster is duplicate-free, capped, and lists exactly the accounts with a submission; the
      legacy price exists exactly when the roster is not empty, and is a newest submission. */
  ghost predicate Feeders(price: Option<PriceData>, subs: Submissions, roster: seq<Address>, now: nat) {
    Rostered(subs, roster, now) && Scalar(price, subs, roster)
  }

  ghost predicate Rostered(subs: Submissions, roster: seq<Address>, now: nat) {
    && NoDuplicates(roster) && |roster| <= MAX_SUBMITTERS
    && (forall a :: a in subs <==> a in roster)
    && (forall a :: a in subs ==> 0 < subs[a].price <= U64_MAX && subs[a].updatedAt <= now)
  }

  ghost predicate Scalar(price: Option<PriceData>, subs: Submissions, roster: seq<Address>) {
    && (price.Some? <==> roster != [])
    && (price.Some? ==> IsNewest(price.value, subs))
  }

  lemma SubmissionKeepsFeeders(price: Option<PriceData>, subs: Submissions, roster: seq<Address>, now: nat, caller: Address, data: PriceData)
    requires Feeders(price, subs, roster, now)
    requires 0 < data.price <= U64_MAX && data.updatedAt == now
    requires caller in roster || |roster| < MAX_SUBMITTERS
    ensures Feeders(Some(data), subs[caller := data], if caller in roster then roster else roster + [caller], now)
  {
    var subs' := subs[caller := data];
    assert caller in subs' && subs'[caller] == data;
  }

  lemma RemovalKeepsRoster(subs: Submissions, roster: seq<Address>, now: nat, account: Address)
    requires Rostered(subs, roster, now)
    ensures Rostered(subs - {account}, Without(roster, account), now)
  {
    hide Without, NoDuplicates;
    WithoutRemoves(roster, account);
  }

  lemma RemovalSetsScalar(subs: Submissions, roster: seq<Address>, now: nat, account: Address)
    requires Rostered(subs - {account}, Without(roster, account), now)
    ensures Scalar(Latest(Without(roster, account), subs - {account}), subs - {account}, Without(roster, account))
  {
    hide Without, Latest;
    var rest, left := Without(roster, account), subs - {account};
    LatestIsNewest(rest, left);
  }

  lemma RemovalKeepsFeeders(price: Option<PriceData>, subs: Submissions, roster: seq<Address>, now: nat, account: Address)
    requires Feeders(price, subs, roster, now)
    ensures var rest, left := Without(roster, account), subs - {account};
            Feeders(if account in roster then Latest(rest, left) else price, left, rest, now)
  {
    hide Without, Latest, NoDuplicates, Scalar;
    if account !in roster {
      WithoutRemoves(roster, account);
      assert account !in subs;
      assert subs - {account} == subs;
    } else {
      RemovalKeepsRoster(subs, roster, now, account);
      RemovalSetsScalar(subs, roster, now, account);
    }
  }

  class TwapOracle {
    var config: Option<OracleConfig>
    var price: Option<PriceData>
    var submissions: Submissions
    var submitters: seq<Address>
    var observations: seq<Twap.Observation>
    var maxDeviationBps: nat
    var quoteCurrency: Option<string>
    var maxStalenessSeconds: Option<nat>
    const roles: RoleTable<Role>
    var lockDepth: nat
    var clock: nat

    ghost predicate Valid()
      reads this, roles
    {
      lockDepth == 0 && Consistent()
    }

    /** What holds even while a guarded read is under way. */
    ghost predicate Consistent()
      reads this, roles
    {
      && roles.Valid() && roles.admin == Admin
      && clock <= U64_MAX
      && Feeders(price, submissions, submitters, clock)
      && Twap.History(observations, clock)
      && (config.Some? ==> Sound(config.value))
    }

    /** An oracle whose only admin is `admin`. */
    constructor (admin: Address)
      ensures Valid() && fresh(roles) && IsAdmin(admin)
    {
      roles := new RoleTable(Role.Admin);
      quoteCurrency, maxStalenessSeconds := None, None;
      config, price, submissions, submitters := None, None, map[], [];
      observations, maxDeviationBps, lockDepth, clock := [], 0, 0, 0;
      new;
      var _ := roles.Grant(Admin, admin, 0);
    }

    predicate IsAdmin(a: Address)
      reads this, roles
    {
      roles.HasRole(Admin, a, clock)
    }

    /** The ledger clock never goes back. */
    method AdvanceClock(now: nat)
      requires Valid() && clock <= now <= U64_MAX
      modifies `clock
      ensures Valid() && clock == now
    {
      clock := now;
    }

    method FreshSubmissions(maxStaleness: nat) returns (live: seq<nat>, sawAny: bool)
      requires forall a :: a in submissions <==> a in submitters
      ensures live == FreshPrices(submitters, submissions, maxStaleness, clock)
      ensures sawAny <==> submitters != []
    {
      live, sawAny := [], false;
      for i := 0 to |submitters|
        invariant live == FreshPrices(submitters[..i], submissions, maxStaleness, clock)
        invariant sawAny <==> i > 0
      {
        assert submitters[..i + 1][..i] == submitters[..i];
        if submitters[i] in submissions {
          sawAny := true;
          var data := submissions[submitters[i]];
          if SatSub(clock, data.updatedAt) <= maxStaleness && data.price != 0 {
            live := live + [data.price];
          }
        }
      }
      assert submitters[..|submitters|] == submitters;
    }

    /** Adds a feeder to the roster the first time it submits; a full roster refuses newcomers. */
    method AddSubmitter(account: Address) returns (failure: Option<Error>)
      modifies `submitters
      ensures failure.None? <==> account in old(submitters) || |old(submitters)| < MAX_SUBMITTERS
      ensures submitters == if account in old(submitters) || failure.Some? then old(submitters) else old(submitters) + [account]
      ensures failure.Some? ==> failure == Some(TooManySubmitters)
    {
      var i := 0;
      while i < |submitters|
        invariant 0 <= i <= |submitters|
        invariant account !in submitters[..i]
      {
        if submitters[i] == account {
          return None;
        }
        i := i + 1;
      }
      if |submitters| >= MAX_SUBMITTERS {
        return Some(TooManySubmitters);
      }
      submitters := submitters + [account];
      failure := None;
    }

    /** Median of the fresh submissions, or the given price if there is nothing to take it of. */
    method CurrentSubmissionMedian(fallbackPrice: nat) returns (aggregate: nat)
      requires Valid() && fallbackPrice <= U64_MAX
      ensures aggregate == Aggregate(config, submitters, submissions, fallbackPrice, clock) <= U64_MAX
    {
      if config.None? {
        return fallbackPrice;
      }
      var live, _ := FreshSubmissions(config.value.maxStaleness);
      if live == [] {
        return fallbackPrice;
      }
      FreshWithin(submitters, submissions, config.value.maxStaleness, clock, 0, U64_MAX);
      AllCounted(live, 0, U64_MAX);
      MajorityConfines(live, 0, U64_MAX);
      aggregate := MedianU64(live);
    }

    lemma SubmittedInThePast(a: Address)
      requires Valid() && a in submissions
      ensures submissions[a].updatedAt <= clock
    {
    }

    /** Accepts a feeder's price: all checks first, then every record of it, or nothing at all. */
    method SubmitPrice(caller: Address, newPrice: nat, paused: bool) returns (r: Option<Error>)
      requires Valid() && newPrice <= U64_MAX
      modifies this
      ensures Valid()
      ensures r == var refusal := Refusal(newPrice, caller, paused, roles.HasRole(PriceFeeder, caller, old(clock)), old(price), old(config),
                                          old(maxDeviationBps), old(submissions), clock);
                   if refusal.Some? then refusal
                   else if caller !in old(submitters) && |old(submitters)| >= MAX_SUBMITTERS then Some(TooManySubmitters) else None
      ensures r.None? <==>
                && Acceptable(newPrice, caller, paused, roles.HasRole(PriceFeeder, caller, old(clock)), old(price), old(config),
                              old(maxDeviationBps), old(submissions), clock)
                && (caller in old(submitters) || |old(submitters)| < 32)
      ensures r.Some? ==> unchanged(this)
      ensures config == old(config) && clock == old(clock) && maxDeviationBps == old(maxDeviationBps)
      ensures r.None? ==>
                && price == Some(PriceData(newPrice, clock))
                && submissions == old(submissions)[caller := PriceData(newPrice, clock)]
                && submitters == (if caller in old(submitters) then old(submitters) else old(submitters) + [caller])
                && observations == Twap.Recorded(old(observations),
                                                 Twap.Observation(Aggregate(config, submitters, submissions, newPrice, clock), clock))
    {
      hide Acceptable, Refusal, Twap.Recorded, Twap.History, Aggregate, FreshPrices, Feeders;
      var authorized := roles.HasRole(PriceFeeder, caller, clock);
      if caller in submissions {
        SubmittedInThePast(caller);
      }
      AcceptedIff(newPrice, caller, paused, authorized, price, config, maxDeviationBps, submissions, clock);
      var refusal := Refusal(newPrice, caller, paused, authorized, price, config, maxDeviationBps, submissions, clock);
      if refusal.Some? {
        return refusal;
      }
      if caller in submitters || |submitters| < MAX_SUBMITTERS {
        SubmissionKeepsFeeders(price, submissions, submitters, clock, caller, PriceData(newPrice, clock));
      }
      var savedPrice, savedSubmissions := price, submissions;
      var data := PriceData(newPrice, clock);
      price := Some(data);
      submissions := submissions[caller := data];
      var full := AddSubmitter(caller);
      if full.Some? {
        price, submissions := savedPrice, savedSubmissions;
        return full;
      }
      var aggregate := CurrentSubmissionMedian(newPrice);
      RecordSample(aggregate);
      r := None;
    }

    method RecordSample(aggregate: nat)
      requires Twap.History(observations, clock) && aggregate <= U64_MAX
      modifies `observations
      ensures observations == Twap.Recorded(old(observations), Twap.Observation(aggregate, clock)) && Twap.History(observations, clock)
    {
      hide Twap.Recorded;
      Twap.HistoryIsPast(observations, clock);
      var recorded := Twap.RecordPriceObservation(observations, aggregate, clock);
      if recorded.Err? {
        assert false;  // the clock never falls behind the history
      }
      Twap.RecordedIsHistory(observations, Twap.Observation(aggregate, clock), clock);
      observations := recorded.value;
    }

    method SplitRoster(account: Address) returns (found: bool, updated: seq<Address>)
      ensures found <==> account in submitters
      ensures updated == Without(submitters, account)
    {
      found, updated := false, [];
      for i := 0 to |submitters|
        invariant found <==> account in submitters[..i]
        invariant updated == Without(submitters[..i], account)
      {
        assert submitters[..i + 1][..i] == submitters[..i];
        if submitters[i] == account {
          found := true;
        } else {
          updated := updated + [submitters[i]];
        }
      }
      assert submitters[..|submitters|] == submitters;
    }

    method LatestSubmission(roster: seq<Address>) returns (latest: Option<PriceData>)
      ensures latest == Latest(roster, submissions)
    {
      latest := None;
      for i := 0 to |roster|
        invariant latest == Latest(roster[..i], submissions)
      {
        assert roster[..i + 1][..i] == roster[..i];
        if roster[i] in submissions {
          var sub := submissions[roster[i]];
          if latest.None? || sub.updatedAt > latest.value.updatedAt {
            latest := Some(sub);
          }
        }
      }
      assert roster[..|roster|] == roster;
    }

    /** Drops a feeder and its submission, and points the legacy scalar at the newest one left. */
    method RemoveSubmitter(account: Address)
      requires Valid()
      modifies `submissions, `submitters, `price
      ensures Valid()
      ensures submissions == old(submissions) - {account}
      ensures submitters == Without(old(submitters), account)
      ensures price == if account in old(submitters) then Latest(submitters, submissions) else old(price)
    {
      hide Feeders, Without, Latest, Twap.History;
      RemovalKeepsFeeders(price, submissions, submitters, clock, account);
      NoLatest(submissions - {account});
      submissions := submissions - {account};
      var found, updated := SplitRoster(account);
      if found {
        submitters := updated;
        if updated == [] {
          price := None;
        } else {
          price := LatestSubmission(updated);
        }
      } else {
        WithoutRemoves(submitters, account);
      }
      assert Feeders(price, submissions, submitters, clock);
      return;
    }

    /** Revokes a role; a revocation of the feeder role that removed an assignment also drops the feeder's data. */
    method RevokeRole(caller: Address, role: Role, account: Address) returns (failure: Option<Error>)
      requires Valid()
      modifies `submissions, `submitters, `price, roles
      ensures Valid()
      ensures failure == if !old(IsAdmin(caller)) then Some(NotAuthorized)
                         else if Revocation(old(roles.grants), old(roles.adminCount), Admin, role, account, clock).Err? then Some(Error.LastAdmin)
                         else None
      ensures failure.Some? ==> roles.grants == old(roles.grants)
      ensures failure.None? ==> roles.grants == old(roles.grants) - {(role, account)}
      ensures if failure.None? && role == PriceFeeder && (PriceFeeder, account) in old(roles.grants)
              then && account !in submissions && account !in submitters
                   && submissions == old(submissions) - {account} && submitters == Without(old(submitters), account)
                   && price == if account in old(submitters) then Latest(submitters, submissions) else old(price)
              else submissions == old(submissions) && submitters == old(submitters) && price == old(price)
    {
      hide Feeders, Twap.History, RolesOk, Latest, Sound;
      if !IsAdmin(caller) {
        return Some(NotAuthorized);
      }
      var removed := roles.Revoke(role, account, clock);
      if removed.Err? {
        return Some(Error.LastAdmin);
      }
      if removed == Ok(true) && role == PriceFeeder {
        WithoutRemoves(submitters, account);
        RemoveSubmitter(account);
      }
      failure := None;
    }

    /** An admin drops a feeder's data without touching its role. */
    method PurgeSubmitter(caller: Address, feeder: Address) returns (failure: Option<Error>)
      requires Valid()
      modifies `submissions, `submitters, `price
      ensures Valid()
      ensures failure == if IsAdmin(caller) then None else Some(NotAuthorized)
      ensures if failure.Some? then unchanged(this)
              else && submissions == old(submissions) - {feeder} && submitters == Without(old(submitters), feeder)
                   && price == if feeder in old(submitters) then Latest(submitters, submissions) else old(price)
    {
      if !IsAdmin(caller) {
        return Some(NotAuthorized);
      }
      RemoveSubmitter(feeder);
      failure := None;
    }

    /** Validates and stores a configuration; a change of price scale or peg discards all price data. */
    method StoreOracleConfig(newConfig: OracleConfig) returns (r: Option<Error>)
      requires Valid()
      modifies this
      ensures Valid()
      ensures r == ConfigRefusal(newConfig)
      ensures r.Some? ==> unchanged(this)
      ensures r.None? ==>
                && config == Some(newConfig) && clock == old(clock) && maxDeviationBps == old(maxDeviationBps)
                && quoteCurrency == old(quoteCurrency) && maxStalenessSeconds == old(maxStalenessSeconds)
                && (if old(config).Some? && (old(config).value.decimals != newConfig.decimals || old(config).value.assetPeg != newConfig.assetPeg)
                    then price.None? && submissions == map[] && submitters == [] && observations == []
                    else price == old(price) && submissions == old(submissions) && submitters == old(submitters) && observations == old(observations))
    {
      if newConfig.decimals > 19 {
        return Some(InvalidDecimals);
      }
      if newConfig.maxStaleness == 0 {
        return Some(InvalidMaxStaleness);
      }
      if newConfig.minSubmitters == 0 || newConfig.minSubmitters > MAX_SUBMITTERS {
        return Some(InvalidMinSubmitters);
      }
      if config.Some? && (config.value.decimals != newConfig.decimals || config.value.assetPeg != newConfig.assetPeg) {
        price := None;
        for i := 0 to |submitters|
          invariant submitters == old(submitters) && price.None?
          invariant unchanged(`config) && unchanged(`clock) && unchanged(`maxDeviationBps) && unchanged(`lockDepth)
          invariant unchanged(`quoteCurrency) && unchanged(`maxStalenessSeconds)
          invariant forall a :: a in submissions <==> a in submitters && a !in submitters[..i]
        {
          submissions := submissions - {submitters[i]};
        }
        assert submissions == map[];
        submitters, observations := [], [];
      }
      config := Some(newConfig);
      r := None;
    }

    /** Replaces the whole configuration. */
    method ConfigureOracle(caller: Address, newConfig: OracleConfig) returns (r: Option<Error>)
      requires Valid()
      modifies this
      ensures Valid()
      ensures r == if !old(IsAdmin(caller)) then Some(NotAuthorized) else ConfigRefusal(newConfig)
      ensures r.Some? ==> unchanged(this)
      ensures r.None? ==>
                && config == Some(newConfig) && clock == old(clock)
                && (if old(config).Some? && (old(config).value.decimals != newConfig.decimals || old(config).value.assetPeg != newConfig.assetPeg)
                    then price.None? && submissions == map[] && submitters == [] && observations == []
                    else price == old(price) && submissions == old(submissions) && submitters == old(submitters) && observations == old(observations))
    {
      if !IsAdmin(caller) {
        return Some(NotAuthorized);
      }
      r := StoreOracleConfig(newConfig);
    }

    /** Field-wise reconfiguration: omitted fields keep their values. */
    method UpdateOracleConfig(caller: Address, update: ConfigUpdate) returns (r: Option<Error>)
      requires Valid()
      modifies this
      ensures Valid()
      ensures r.Some? ==> unchanged(this)
      ensures r == if !old(IsAdmin(caller)) then Some(NotAuthorized)
                   else if old(config).None? then Some(OracleNotConfigured) else ConfigRefusal(Updated(old(config).value, update))
      ensures r.None? ==>
                && config == Some(Updated(old(config).value, update)) && clock == old(clock)
                && config.value.decimals == (if update.decimals.Some? then update.decimals.value else old(config).value.decimals)
                && config.value.assetPeg == (if update.assetPeg.Some? then update.assetPeg.value else old(config).value.assetPeg)
                && config.value.maxStaleness == (if update.maxStaleness.Some? then update.maxStaleness.value else old(config).value.maxStaleness)
                && config.value.maxPrice == (if update.maxPrice.Some? then update.maxPrice.value else old(config).value.maxPrice)
                && config.value.minSubmitInterval ==
                   (if update.minSubmitInterval.Some? then update.minSubmitInterval.value else old(config).value.minSubmitInterval)
                && config.value.minSubmitters ==
                   (if update.minSubmitters.Some? then update.minSubmitters.value else old(config).value.minSubmitters)
                && maxDeviationBps == update.maxDeviationBps.GetOr(old(maxDeviationBps))
                && quoteCurrency == (if update.quoteCurrency.Some? then update.quoteCurrency else old(quoteCurrency))
                && (if old(config).value.decimals != config.value.decimals || old(config).value.assetPeg != config.value.assetPeg
                    then price.None? && submissions == map[] && submitters == [] && observations == []
                    else price == old(price) && submissions == old(submissions) && submitters == old(submitters) && observations == old(observations))
    {
      if !IsAdmin(caller) {
        return Some(NotAuthorized);
      }
      if config.None? {
        return Some(OracleNotConfigured);
      }
      r := StoreOracleConfig(Updated(config.value, update));
      if r.None? {
        if update.quoteCurrency.Some? {
          quoteCurrency := update.quoteCurrency;
        }
        maxDeviationBps := update.maxDeviationBps.GetOr(maxDeviationBps);
      }
    }

    /** Changes the staleness limit, in its own entry and in the configuration if there is one. */
    method SetMaxStaleness(caller: Address, paused: bool, seconds: nat) returns (r: Option<Error>)
      requires Valid()
      modifies `config, `maxStalenessSeconds
      ensures Valid()
      ensures r == if paused then Some(ContractPaused) else if !old(IsAdmin(caller)) then Some(NotAuthorized)
                   else if seconds == 0 then Some(InvalidMaxStaleness) else None
      ensures r.Some? ==> unchanged(this)
      ensures r.None? ==> maxStalenessSeconds == Some(seconds)
      ensures r.None? ==> config == if old(config).Some? then Some(old(config).value.(maxStaleness := seconds)) else None
    {
      if paused {
        return Some(ContractPaused);
      }
      if !IsAdmin(caller) {
        return Some(NotAuthorized);
      }
      if seconds == 0 {
        return Some(InvalidMaxStaleness);
      }
      maxStalenessSeconds := Some(seconds);
      if config.Some? {
        config := Some(config.value.(maxStaleness := seconds));
      }
      r := None;
    }

    /** Health of the feeder set: the fresh count, the quorum, and the spread of fresh ages. */
    method LoadPriceStatus() returns (r: Result<PriceStatus, Error>)
      requires Valid()
      ensures var status := StatusOf(config, submitters, submissions, clock);
              && (status.Err? ==> r == Err(status.error))
              && (status.Ok? ==>
                    && r.Ok? && r.value.freshSubmitterCount == status.value
                    && r.value.minSubmitters == config.value.minSubmitters
                    && r.value.stale == (status.value == 0))
      ensures r.Ok? ==> r.value.freshSubmitterCount == |FreshFeeders(submitters, submissions, config.value.maxStaleness, clock)|
      ensures r.Ok? ==>
                var ages := FreshAges(submitters, submissions, config.value.maxStaleness, clock);
                r.value.newestAge == Least(ages) && r.value.oldestFreshAge == Greatest(ages)
    {
      FreshSomeIff();
      if config.None? {
        return Err(OracleNotConfigured);
      }
      var maxStaleness := config.value.maxStaleness;
      hide FreshFeeders, FreshAges, FreshPrices, Least, Greatest, Scalar, Twap.History;
      NoAges(submissions, maxStaleness, clock);
      var count, newest, oldest, sawAny := 0, 0, 0, false;
      for i := 0 to |submitters|
        invariant var ages := FreshAges(submitters[..i], submissions, maxStaleness, clock);
                  count == |ages| && newest == Least(ages) && oldest == Greatest(ages)
        invariant sawAny <==> i > 0
      {
        AgesStep(submitters, i, submissions, maxStaleness, clock);
        if submitters[i] in submissions {
          sawAny := true;
          var data := submissions[submitters[i]];
          var age := SatSub(clock, data.updatedAt);
          if age <= maxStaleness && data.price != 0 {
            ExtremesStep(FreshAges(submitters[..i], submissions, maxStaleness, clock), age);
            if count == 0 {
              newest, oldest := age, age;
            } else {
              newest, oldest := Min(newest, age), Max(oldest, age);
            }
            count := count + 1;
          }
        }
      }
      assert submitters[..|submitters|] == submitters;
      AgesMatchPrices(submitters, submissions, maxStaleness, clock);
      if !sawAny {
        return Err(NoPriceAvailable);
      }
      r := Ok(PriceStatus(count, config.value.minSubmitters, newest, oldest, count == 0));
    }

    /** What a read answers over the last `count` observations: the error of the first check to fail, or the price. */
    ghost predicate Answered(r: Result<nat, Error>, count: nat)
      reads this
    {
      if count == 0 || count > 32 then r == Err(InvalidObservationCount)
      else if config.None? then r == Err(OracleNotConfigured)
      else
        var c := config.value;
        var feeders := FreshFeeders(submitters, submissions, c.maxStaleness, clock);
        if submitters == [] then r == Err(NoPriceAvailable)
        else if feeders == {} then r == Err(OracleStalePrice)
        else if |feeders| < c.minSubmitters then r == Err(InsufficientQuorum)
        else r.Ok? && Priced(r.value, observations[|observations| - Min(count, |observations|)..], feeders, submissions, c.maxStaleness, clock)
    }

    lemma FreshSomeIff()
      requires Consistent()
      ensures config.Some? ==>
                |FreshPrices(submitters, submissions, config.value.maxStaleness, clock)|
                == |FreshFeeders(submitters, submissions, config.value.maxStaleness, clock)| <= |submitters|
    {
      if config.Some? {
        FewFresh(submitters, submissions, config.value.maxStaleness, clock);
        FreshPricesAre(submitters, submissions, config.value.maxStaleness, clock);
      }
    }

    method GetTwapPriceInner(observationCount: nat) returns (r: Result<nat, Error>)
      requires Consistent()
      ensures r == ReadOf(config, submitters, submissions, observations, observationCount, clock)
      ensures Answered(r, observationCount)
    {
      hide FreshPrices, FreshFeeders, Priced;
      FreshSomeIff();
      if ReadOf(config, submitters, submissions, observations, observationCount, clock).Ok? {
        ReadIsPriced(config, submitters, submissions, observations, observationCount, clock);
      }
      if observationCount == 0 || observationCount > Twap.MAX_TWAP_OBSERVATIONS {
        return Err(InvalidObservationCount);
      }
      if config.None? {
        return Err(OracleNotConfigured);
      }
      var live, sawAny := FreshSubmissions(config.value.maxStaleness);
      if live == [] {
        if sawAny {
          return Err(OracleStalePrice);
        }
        return Err(NoPriceAvailable);
      }
      if |live| < config.value.minSubmitters {
        return Err(InsufficientQuorum);
      }
      var average := Twap.CalculateTwap(observations, clock, observationCount, config.value.maxStaleness);
      if average.Ok? {
        return Ok(average.value);
      }
      var median := MedianU64(live);
      r := Ok(median);
    }

    /** The guarded price read: the lock is taken, the price computed, the lock released. */
    method GetTwapPrice() returns (r: Result<nat, Error>)
      requires Consistent()
      modifies `lockDepth
      ensures lockDepth == old(lockDepth)
      ensures if lockDepth > 0 then r == Err(OracleLocked) else Answered(r, 32)
      ensures r == if lockDepth > 0 then Err(OracleLocked)
                   else ReadOf(config, submitters, submissions, observations, Twap.MAX_TWAP_OBSERVATIONS, clock)
    {
      if lockDepth >= 1 {
        return Err(OracleLocked);
      }
      lockDepth := lockDepth + 1;
      r := GetTwapPriceInner(Twap.MAX_TWAP_OBSERVATIONS);
      if lockDepth > 0 {
        lockDepth := lockDepth - 1;
      }
    }
  }
}
