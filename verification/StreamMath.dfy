/** Accrual arithmetic of one stream and its lifecycle: pause, resume and rate changes
    (contracts/stream/src/math.rs, contracts/stream/src/lib.rs). */
module StreamMath {
  import opened Base
  import Registry

  const MAX_PAUSE_SECS: nat := 2_592_000

  datatype Error = ArithmeticOverflow | AlreadyPaused | NotPaused | StreamNotStarted | StreamEnded | InvalidAmount
                 | InvalidTimeRange | PauseThresholdNotMet

  datatype StreamInfo = StreamInfo(rate: int, start: nat, end: nat, withdrawn: int, paused: bool, pausedAt: nat)

  /** Optional unlock at a fixed time. */
  datatype Cliff = Cliff(time: nat, unlock: int)

  /** Value accrued up to `at`; from there the current rate applies. */
  datatype Checkpoint = Checkpoint(accrued: int, at: nat)

  datatype Stream = Stream(info: StreamInfo, checkpoint: Option<Checkpoint>, cliff: Option<Cliff>)

  // ---- accrual -----------------------------------------------------------------------

  function MulDiv(value: int, multiplier: nat, divisor: nat): Result<int, Error> {
    if value < 0 || divisor == 0 then Err(ArithmeticOverflow)
    else if value * multiplier / divisor > I128_MAX then Err(ArithmeticOverflow)
    else Ok(value * multiplier / divisor)
  }

  function CheckedAdd(a: int, b: int): Result<int, Error> {
    if I128_MIN <= a + b <= I128_MAX then Ok(a + b) else Err(ArithmeticOverflow)
  }

  function EffectiveNow(info: StreamInfo, now: nat): nat {
    if info.paused then
      if info.end > 0 && info.pausedAt > info.end then info.end else info.pausedAt
    else if info.end > 0 && now > info.end then info.end
    else now
  }

  /** `unlock` at `origin`, then `rate` per second. */
  function Linear(unlock: int, rate: int, origin: nat, effective: nat): Result<int, Error> {
    if effective < origin then Ok(0)
    else
      var linear := MulDiv(rate, effective - origin, 1);
      if linear.Err? then linear else CheckedAdd(unlock, linear.value)
  }

  function StreamedAmount(s: Stream, now: nat): Result<int, Error> {
    var info := s.info;
    if now < info.start then Ok(0)
    else
      var effective := EffectiveNow(info, now);
      if s.checkpoint.Some? then Linear(s.checkpoint.value.accrued, info.rate, s.checkpoint.value.at, effective)
      else if s.cliff.Some? then Linear(s.cliff.value.unlock, info.rate, s.cliff.value.time, effective)
      else if effective < info.start then Err(ArithmeticOverflow)
      else MulDiv(info.rate, effective - info.start, 1)
  }

  /** What the recipient can take now: never negative, and a subtraction that saturates in 128 bits. */
  function Withdrawable(s: Stream, now: nat): Result<int, Error> {
    var streamed := StreamedAmount(s, now);
    if streamed.Err? then streamed
    else
      var available := streamed.value - s.info.withdrawn;
      var clamped := if available > I128_MAX then I128_MAX else if available < I128_MIN then I128_MIN else available;
      Ok(if clamped < 0 then 0 else clamped)
  }

  // ---- lifecycle ---------------------------------------------------------------------

  function Pause(s: Stream, now: nat): Result<Stream, Error> {
    if s.info.paused then Err(AlreadyPaused)
    else if now < s.info.start then Err(StreamNotStarted)
    else if s.info.end > 0 && now > s.info.end then Err(StreamEnded)
    else if Withdrawable(s, now).Err? then Err(ArithmeticOverflow)
    else Ok(s.(info := s.info.(paused := true, pausedAt := now)))
  }

  function Resume(s: Stream, now: nat): Result<Stream, Error> {
    if !s.info.paused then Err(NotPaused)
    else if now < s.info.pausedAt then Err(ArithmeticOverflow)
    else
      var d := now - s.info.pausedAt;
      var shifted := s.checkpoint.Some? && s.checkpoint.value.at <= s.info.pausedAt;
      if shifted && s.checkpoint.value.at + d > U64_MAX then Err(ArithmeticOverflow)
      else if d > MAX_PAUSE_SECS then Err(PauseThresholdNotMet)
      else if s.info.start + d > U64_MAX then Err(ArithmeticOverflow)
      else if s.info.end > 0 && s.info.end + d > U64_MAX then Err(ArithmeticOverflow)
      else
        var info := s.info.(paused := false, pausedAt := 0, start := s.info.start + d,
                            end := if s.info.end > 0 then s.info.end + d else s.info.end);
        Ok(Stream(info, if shifted then Some(s.checkpoint.value.(at := s.checkpoint.value.at + d)) else s.checkpoint, s.cliff))
  }

  function ChangeRate(s: Stream, now: nat, newRate: int): Result<Stream, Error> {
    var info := s.info;
    if newRate <= 0 then Err(InvalidAmount)
    else if info.end > 0 && now >= info.end then Err(StreamEnded)
    else if StreamedAmount(s, now).Err? then Err(ArithmeticOverflow)
    else
      var accrued := StreamedAmount(s, now).value;
      var changeTime := if info.paused then info.pausedAt else now;
      var checkpoint :=
        if s.cliff.Some? then
          if changeTime < s.cliff.value.time then Checkpoint(s.cliff.value.unlock, s.cliff.value.time)
          else Checkpoint(accrued, changeTime)
        else if changeTime < info.start then Checkpoint(0, info.start)
        else Checkpoint(accrued, changeTime);
      if info.end > 0 && checkpoint.at < info.end
         && (newRate * (info.end - checkpoint.at) > I128_MAX || checkpoint.accrued + newRate * (info.end - checkpoint.at) > I128_MAX)
      then Err(ArithmeticOverflow)
      else Ok(s.(info := info.(rate := newRate), checkpoint := Some(checkpoint)))
  }

  /** A cliff may be set, and set again, at any time. */
  function SetCliff(s: Stream, c: Cliff): Result<Stream, Error> {
    if c.unlock < 0 then Err(InvalidAmount)
    else if c.time < s.info.start || (s.info.end > 0 && c.time > s.info.end) then Err(InvalidTimeRange)
    else Ok(s.(cliff := Some(c)))
  }

  // ---- when the entry points succeed -------------------------------------------------

  /** A stream can be paused from its start to its end inclusive, once, as long as its amount computes; the amount
      then stays what it was. */
  lemma PauseIff(s: Stream, now: nat)
    ensures var r, info := Pause(s, now), s.info;
            && (r.Ok? <==> !info.paused && info.start <= now && (info.end == 0 || now <= info.end) && StreamedAmount(s, now).Ok?)
            && (r == Err(AlreadyPaused) <==> info.paused)
            && (r == Err(StreamNotStarted) <==> !info.paused && now < info.start)
            && (r == Err(StreamEnded) <==> !info.paused && info.start <= now && 0 < info.end < now)
            && (r.Err? ==> r.error in {AlreadyPaused, StreamNotStarted, StreamEnded, ArithmeticOverflow})
            && (r.Ok? ==>
                  && r.value == Stream(StreamInfo(info.rate, info.start, info.end, info.withdrawn, true, now), s.checkpoint, s.cliff)
                  && forall u: nat :: now <= u ==> StreamedAmount(r.value, u) == StreamedAmount(s, now))
  {
    hide Linear, MulDiv;
    var r := Pause(s, now);
    if r.Ok? {
      forall u: nat | now <= u ensures StreamedAmount(r.value, u) == StreamedAmount(s, now) {
        assert EffectiveNow(r.value.info, u) == EffectiveNow(s.info, now);
      }
    }
  }

  /** The amount of a bounded stream always computes, so nothing else stands in the way. */
  lemma BoundedPausesIff(s: Stream, deposit: int, now: nat)
    requires Bounded(s, deposit)
    ensures Pause(s, now).Ok? <==> !s.info.paused && s.info.start <= now <= s.info.end
  {
    hide StreamedAmount;
    PauseIff(s, now);
    BoundedIsSolvent(s, deposit, now);
  }

  /** A stream can be resumed for 30 days after its pause, as far as the later times fit 64 bits; start, end and a
      checkpoint that had taken effect move by the length of the pause. */
  lemma ResumeIff(s: Stream, now: nat)
    ensures var r, info, d := Resume(s, now), s.info, now - s.info.pausedAt;
            var inEffect := s.checkpoint.Some? && s.checkpoint.value.at <= info.pausedAt;
            && (r.Ok? <==>
                  && info.paused && info.pausedAt <= now <= info.pausedAt + 2_592_000
                  && info.start + d <= U64_MAX && (info.end > 0 ==> info.end + d <= U64_MAX)
                  && (inEffect ==> s.checkpoint.value.at + d <= U64_MAX))
            && (r == Err(NotPaused) <==> !info.paused)
            && (r == Err(PauseThresholdNotMet) <==>
                  info.paused && now > info.pausedAt + 2_592_000 && (inEffect ==> s.checkpoint.value.at + d <= U64_MAX))
            && (r.Err? ==> r.error in {NotPaused, PauseThresholdNotMet, ArithmeticOverflow})
            && (r.Ok? ==>
                  && r.value.info == StreamInfo(info.rate, info.start + d, if info.end > 0 then info.end + d else 0, info.withdrawn, false, 0)
                  && r.value.checkpoint == (if inEffect then Some(Checkpoint(s.checkpoint.value.accrued, s.checkpoint.value.at + d)) else s.checkpoint)
                  && r.value.cliff == s.cliff)
  {
  }

  /** Paused within its time and resumed at a 64-bit time, a stream can only miss the grace window or overflow its end. */
  lemma OrderlyResumesIff(s: Stream, now: nat)
    requires Orderly(s) && now <= U64_MAX
    ensures Resume(s, now).Ok? <==>
              && s.info.paused && s.info.pausedAt <= now <= s.info.pausedAt + 2_592_000
              && (s.info.end > 0 ==> s.info.end + (now - s.info.pausedAt) <= U64_MAX)
  {
    ResumeIff(s, now);
  }

  /** Where a rate change at `now` puts the checkpoint: at the cliff or the start if that lies ahead, with what is
      held there; otherwise at the time of the change, with what has streamed. */
  predicate Checkpointed(c: Checkpoint, s: Stream, now: nat) {
    var at := if s.info.paused then s.info.pausedAt else now;
    if s.cliff.Some? && at < s.cliff.value.time then c.at == s.cliff.value.time && c.accrued == s.cliff.value.unlock
    else if s.cliff.None? && at < s.info.start then c.at == s.info.start && c.accrued == 0
    else c.at == at && Ok(c.accrued) == StreamedAmount(s, now)
  }

  /** The rate can be changed before the end, to a positive one that the checked arithmetic covers up to the end;
      the rate and the checkpoint are all that changes. */
  lemma ChangeRateIff(s: Stream, now: nat, newRate: int)
    ensures var r, info := ChangeRate(s, now, newRate), s.info;
            && (r.Ok? <==>
                  && newRate > 0 && (info.end == 0 || now < info.end) && StreamedAmount(s, now).Ok?
                  && exists c :: Checkpointed(c, s, now) && CoversTheRest(c, info.end, newRate))
            && (r == Err(InvalidAmount) <==> newRate <= 0)
            && (r == Err(StreamEnded) <==> newRate > 0 && 0 < info.end <= now)
            && (r.Err? ==> r.error in {InvalidAmount, StreamEnded, ArithmeticOverflow})
            && (r.Ok? ==>
                  && r.value.info == StreamInfo(newRate, info.start, info.end, info.withdrawn, info.paused, info.pausedAt)
                  && r.value.checkpoint.Some? && Checkpointed(r.value.checkpoint.value, s, now)
                  && r.value.cliff == s.cliff)
  {
    hide StreamedAmount;
    var r := ChangeRate(s, now, newRate);
    if r.Ok? {
      assert CoversTheRest(r.value.checkpoint.value, s.info.end, newRate);
    } else if newRate > 0 && (s.info.end == 0 || now < s.info.end) && StreamedAmount(s, now).Ok? {
      forall c | Checkpointed(c, s, now) ensures !CoversTheRest(c, s.info.end, newRate) {
      }
    }
  }

  /** The rate up to the end, alone and on top of what is held, stays within 128 bits. */
  predicate CoversTheRest(c: Checkpoint, end: nat, newRate: int) {
    0 < end && c.at < end ==>
      newRate * (end - c.at) <= I128_MAX && c.accrued + newRate * (end - c.at) <= I128_MAX
  }

  /** A cliff can be set within the stream's time, for an unlock that is not negative; it is all that changes. */
  lemma SetCliffIff(s: Stream, c: Cliff)
    ensures var r, info := SetCliff(s, c), s.info;
            && (r.Ok? <==> c.unlock >= 0 && info.start <= c.time && (info.end == 0 || c.time <= info.end))
            && (r == Err(InvalidAmount) <==> c.unlock < 0)
            && (r.Err? ==> r.error in {InvalidAmount, InvalidTimeRange})
            && (r.Ok? ==> r.value == Stream(info, s.checkpoint, Some(c)))
  {
  }

  // ---- bounded streams are solvent ---------------------------------------------------

  /** A bounded stream as accepted at creation (Registry.Acceptable), running or paused. */
  predicate Bounded(s: Stream, deposit: int) {
    && s.checkpoint.None? && s.cliff.None?
    && 0 < s.info.rate && s.info.start < s.info.end
    && s.info.rate * (s.info.end - s.info.start) <= deposit <= I128_MAX
  }

  /** Creation's checks are what makes a bounded stream solvent. */
  lemma AcceptedIsBounded(req: Registry.Request, now: nat)
    requires Registry.Acceptable(req, now) && req.end > 0 && req.deposit <= I128_MAX
    ensures Bounded(Created(req.rate, req.start, req.end), req.deposit)
  {
  }

  function Created(rate: int, start: nat, end: nat): Stream {
    Stream(StreamInfo(rate, start, end, 0, false, 0), None, None)
  }

  /** A funded bounded stream always computes, and never owes more than its deposit, exactly when it
      was not paused before its start. */
  lemma BoundedIsSolvent(s: Stream, deposit: int, now: nat)
    requires Bounded(s, deposit)
    ensures StreamedAmount(s, now).Ok? <==> now < s.info.start || !s.info.paused || s.info.start <= s.info.pausedAt
    ensures StreamedAmount(s, now).Ok? ==>
              var streamed := StreamedAmount(s, now).value;
              && 0 <= streamed <= deposit
              && (!s.info.paused && now >= s.info.end ==> streamed == s.info.rate * (s.info.end - s.info.start))
              && (0 <= s.info.withdrawn <= streamed ==>
                    Withdrawable(s, now).Ok? && s.info.withdrawn + Withdrawable(s, now).value == streamed)
              && (streamed < s.info.withdrawn <= I128_MAX ==> Withdrawable(s, now) == Ok(0))
  {
    var effective := EffectiveNow(s.info, now);
    if s.info.start <= effective {
      MulMonotone(s.info.rate, effective - s.info.start, s.info.end - s.info.start);
    }
  }

  /** A running stream never loses value, and pausing it freezes the amount of the pause instant. */
  lemma BoundedNeverShrinks(s: Stream, deposit: int, t: nat, u: nat)
    requires Bounded(s, deposit) && !s.info.paused && t <= u
    ensures StreamedAmount(s, t).Ok? && StreamedAmount(s, u).Ok?
    ensures StreamedAmount(s, t).value <= StreamedAmount(s, u).value
    ensures s.info.start <= t ==>
              StreamedAmount(s.(info := s.info.(paused := true, pausedAt := t)), u) == StreamedAmount(s, t)
  {
    BoundedIsSolvent(s, deposit, t);
    BoundedIsSolvent(s, deposit, u);
    if s.info.start <= t {
      MulMonotone(s.info.rate, EffectiveNow(s.info, t) - s.info.start, EffectiveNow(s.info, u) - s.info.start);
    }
  }

  // ---- rate checkpoints are prospective ----------------------------------------------

  /** When a stream starts to accrue and what it then holds. */
  function Origin(s: Stream): nat {
    if s.checkpoint.Some? then s.checkpoint.value.at else if s.cliff.Some? then s.cliff.value.time else s.info.start
  }

  function Held(s: Stream): int {
    if s.checkpoint.Some? then s.checkpoint.value.accrued else if s.cliff.Some? then s.cliff.value.unlock else 0
  }

  /** Value at effective time `effective`, before any 128-bit check. */
  function Value(s: Stream, effective: nat): int {
    if effective < Origin(s) then 0 else Held(s) + s.info.rate * (effective - Origin(s))
  }

  function Checked(v: int): Result<int, Error> {
    if v <= I128_MAX then Ok(v) else Err(ArithmeticOverflow)
  }

  lemma StreamedIsValue(s: Stream, now: nat)
    requires s.info.start <= now && 0 <= s.info.rate && 0 <= Held(s)
    requires s.checkpoint.Some? || s.cliff.Some? || s.info.start <= EffectiveNow(s.info, now)
    ensures StreamedAmount(s, now) == Checked(Value(s, EffectiveNow(s.info, now)))
    ensures Value(s, EffectiveNow(s.info, now)) >= 0
  {
    var effective := EffectiveNow(s.info, now);
    if Origin(s) <= effective {
      MulMonotone(s.info.rate, 0, effective - Origin(s));
    }
  }

  /** A checkpoint taken once accrual has begun changes nothing if the rate is kept, overflow
      included, and otherwise prices only later effective time at the new rate. */
  lemma CheckpointIsProspective(s: Stream, at: nat, newRate: int, t: nat)
    requires !s.info.paused && 0 <= s.info.rate && 0 <= newRate && 0 <= Held(s)
    requires s.info.start <= at <= t && Origin(s) <= EffectiveNow(s.info, at)
    requires StreamedAmount(s, at).Ok?
    ensures var from := EffectiveNow(s.info, at);
            var installed := s.(info := s.info.(rate := newRate), checkpoint := Some(Checkpoint(StreamedAmount(s, at).value, from)));
            && StreamedAmount(installed, t) == Checked(StreamedAmount(s, at).value + newRate * (EffectiveNow(s.info, t) - from))
            && (newRate == s.info.rate ==> StreamedAmount(installed, t) == StreamedAmount(s, t))
  {
    var from, to := EffectiveNow(s.info, at), EffectiveNow(s.info, t);
    StreamedIsValue(s, at);
    StreamedIsValue(s, t);
    var installed := s.(info := s.info.(rate := newRate), checkpoint := Some(Checkpoint(StreamedAmount(s, at).value, from)));
    StreamedIsValue(installed, t);
    MulSplit(s.info.rate, from - Origin(s), to - from);
  }

  lemma MulSplit(rate: int, a: int, b: int)
    ensures rate * (a + b) == rate * a + rate * b
  {
  }

  // ---- bounded streams after a rate change -------------------------------------------

  /** Rate changes never look at the deposit. Exactly when a running bounded stream stays within it at every
      later time: what has streamed, and the rest at the new rate, are covered. */
  lemma RateChangeIsFundedIff(s: Stream, deposit: int, at: nat, newRate: int)
    requires Bounded(s, deposit) && !s.info.paused && s.info.start <= at && ChangeRate(s, at, newRate).Ok?
    ensures var changed := ChangeRate(s, at, newRate).value;
            (forall u: nat :: at <= u ==> StreamedAmount(changed, u).Ok? && 0 <= StreamedAmount(changed, u).value <= deposit)
            <==> s.info.rate * (at - s.info.start) + newRate * (s.info.end - at) <= deposit
  {
    var changed, end := ChangeRate(s, at, newRate).value, s.info.end;
    StreamedIsValue(s, at);
    assert changed.checkpoint == Some(Checkpoint(s.info.rate * (at - s.info.start), at));
    StreamedIsValue(changed, end);
    assert StreamedAmount(changed, end) == Checked(Value(changed, end));
    if Value(changed, end) <= deposit {
      forall u: nat | at <= u ensures StreamedAmount(changed, u).Ok? && 0 <= StreamedAmount(changed, u).value <= deposit {
        StreamedIsValue(changed, u);
        MulMonotone(newRate, EffectiveNow(changed.info, u) - at, end - at);
      }
    }
  }

  /** A stream funded with 1000 shows 5000 after its rate was raised fivefold. */
  lemma RateChangeOutgrowsDeposit()
    ensures var s := Created(10, 100, 200);
            && Bounded(s, 1000) && ChangeRate(s, 100, 50).Ok?
            && StreamedAmount(ChangeRate(s, 100, 50).value, 200) == Ok(5000)
  {
  }

  /** Nor do cliffs. Exactly when a running bounded stream stays within its deposit from `now` on under a cliff
      set then: the unlock, and the rate from the cliff to the end, are covered. */
  lemma CliffIsFundedIff(s: Stream, deposit: int, now: nat, c: Cliff)
    requires Bounded(s, deposit) && !s.info.paused && SetCliff(s, c).Ok?
    ensures var cliffed := SetCliff(s, c).value;
            (forall u: nat :: now <= u ==> StreamedAmount(cliffed, u).Ok? && 0 <= StreamedAmount(cliffed, u).value <= deposit)
            <==> c.unlock + s.info.rate * (s.info.end - c.time) <= deposit
  {
    var cliffed, late := SetCliff(s, c).value, Max(now, s.info.end);
    StreamedIsValue(cliffed, late);
    assert EffectiveNow(cliffed.info, late) == s.info.end;
    assert StreamedAmount(cliffed, late) == Checked(Value(cliffed, s.info.end));
    if Value(cliffed, s.info.end) <= deposit {
      forall u: nat | now <= u ensures StreamedAmount(cliffed, u).Ok? && 0 <= StreamedAmount(cliffed, u).value <= deposit {
        if s.info.start <= u {
          StreamedIsValue(cliffed, u);
          if c.time <= EffectiveNow(cliffed.info, u) {
            MulMonotone(s.info.rate, EffectiveNow(cliffed.info, u) - c.time, s.info.end - c.time);
          } else {
            MulMonotone(s.info.rate, 0, s.info.end - c.time);
          }
        }
      }
    }
  }

  /** Pausing and resuming, though they move start and end, leave a bounded stream one. */
  lemma PausesKeepBounded(s: Stream, deposit: int, now: nat)
    requires Bounded(s, deposit)
    ensures Pause(s, now).Ok? ==> Bounded(Pause(s, now).value, deposit)
    ensures Resume(s, now).Ok? ==> Bounded(Resume(s, now).value, deposit)
  {
    hide StreamedAmount;
    if Resume(s, now).Ok? {
      assert Resume(s, now).value.info.end - Resume(s, now).value.info.start == s.info.end - s.info.start;
    }
  }

  // ---- what a cliff does to value already earned -------------------------------------

  /** What every reachable stream keeps: amounts are not negative, and a pause lies within the stream's time. */
  predicate Orderly(s: Stream) {
    && 0 < s.info.rate && 0 <= Held(s) && (s.cliff.Some? ==> 0 <= s.cliff.value.unlock)
    && (s.info.end > 0 ==> s.info.start < s.info.end)
    && (s.info.paused ==> s.info.start <= s.info.pausedAt && (s.info.end > 0 ==> s.info.pausedAt <= s.info.end))
  }

  /** Exactly when setting a cliff leaves the streamed amount alone: before the start; under a checkpoint; short
      of the new cliff, if nothing has streamed; and behind it, if it pays what has streamed. */
  lemma SetCliffIsHarmlessIff(s: Stream, c: Cliff, now: nat)
    requires Orderly(s) && SetCliff(s, c).Ok? && StreamedAmount(s, now).Ok?
    ensures var e := EffectiveNow(s.info, now);
            StreamedAmount(SetCliff(s, c).value, now) == StreamedAmount(s, now) <==>
            || now < s.info.start || s.checkpoint.Some?
            || (if e < c.time then e < Origin(s) || (e == Origin(s) && Held(s) == 0)
                else if e < Origin(s) then c.unlock == 0 && e == c.time
                else c.unlock - s.info.rate * c.time == Held(s) - s.info.rate * Origin(s))
  {
    var e, after, rate := EffectiveNow(s.info, now), SetCliff(s, c).value, s.info.rate;
    if s.info.start <= now && s.checkpoint.None? {
      StreamedIsValue(s, now);
      StreamedIsValue(after, now);
      if Origin(s) <= e {
        ProductSplits(rate, e, Origin(s));
        if Origin(s) < e {
          MulMonotone(rate, 1, e - Origin(s));
        }
      }
      if c.time <= e {
        ProductSplits(rate, e, c.time);
        if c.time < e {
          MulMonotone(rate, 1, e - c.time);
        }
      }
    }
  }

  lemma ProductSplits(rate: int, e: int, o: int)
    ensures rate * (e - o) == rate * e - rate * o
  {
  }

  /** When a rate change takes effect. */
  function ChangeTime(s: Stream, now: nat): nat { if s.info.paused then s.info.pausedAt else now }

  /** Earned value is documented never to be repriced. Exactly when a rate change loses it: a cliff lies ahead and
      something has streamed (which takes a checkpoint older than the cliff). All of it is then gone. */
  lemma RateChangeLosesIff(s: Stream, now: nat, newRate: int)
    requires Orderly(s) && ChangeRate(s, now, newRate).Ok?
    ensures var changed := ChangeRate(s, now, newRate).value;
            && (StreamedAmount(changed, now) == StreamedAmount(s, now) <==>
                !(s.cliff.Some? && ChangeTime(s, now) < s.cliff.value.time && StreamedAmount(s, now).value > 0))
            && (StreamedAmount(changed, now) != StreamedAmount(s, now) ==> StreamedAmount(changed, now) == Ok(0))
  {
    var changed := ChangeRate(s, now, newRate).value;
    if s.info.start <= now {
      StreamedIsValue(s, now);
      StreamedIsValue(changed, now);
    }
  }

  /** Three seconds at rate 10 have streamed 30; a cliff set ahead makes it nothing. */
  lemma CliffWipesEarned()
    ensures var s := Created(10, 100, 1000);
            && StreamedAmount(s, 103) == Ok(30)
            && SetCliff(s, Cliff(300, 0)).Ok? && StreamedAmount(SetCliff(s, Cliff(300, 0)).value, 103) == Ok(0)
  {
  }

  /** A checkpoint carries 2000 past a cliff set ahead, and a second rate change drops it. */
  lemma SecondRateChangeLosesEarned()
    ensures var once := ChangeRate(Created(10, 100, 1000), 200, 20);
            && once.Ok? && StreamedAmount(once.value, 250) == Ok(2000)
            && var behind := SetCliff(once.value, Cliff(300, 0));
               && behind.Ok? && StreamedAmount(behind.value, 250) == Ok(2000)
               && var twice := ChangeRate(behind.value, 250, 20);
                  twice.Ok? && StreamedAmount(twice.value, 250) == Ok(0)
  {
  }

  // ---- whole lifecycles --------------------------------------------------------------

  datatype Event = Tick | Paused | Resumed | RateChanged(newRate: int) | CliffSet(cliff: Cliff)

  /** A stream, the ledger clock, and three accounts: the value earned second by second, what resumptions
      paid on top, and by how much cliffs moved value already earned. */
  datatype Meter = Meter(stream: Stream, now: nat, earned: int, caughtUp: int, moved: int)

  /** The stream runs during the second that starts at `u`. */
  predicate Active(info: StreamInfo, u: nat) {
    !info.paused && info.start <= u && (info.end > 0 ==> u < info.end)
  }

  /** Earned during the second that starts at `u`: the rate from the origin of accrual on, and what is held
      there on reaching it. */
  function SecondEarns(s: Stream, u: nat): int {
    (if Active(s.info, u) && Origin(s) <= u then s.info.rate else 0)
    + (if !s.info.paused && u + 1 == Origin(s) then Held(s) else 0)
  }

  /** Resuming moves the origin of accrual along with the pause. */
  predicate OriginMoves(s: Stream) {
    if s.checkpoint.Some? then s.checkpoint.value.at <= s.info.pausedAt else s.cliff.None?
  }

  /** What a resumption at `now` pays for the pause itself: nothing if the origin of accrual moves along;
      otherwise what is held at the origin, if it passed meanwhile, and the rate for every paused second
      behind it. */
  function CatchUp(s: Stream, now: nat): int {
    if OriginMoves(s) then 0
    else
      (if s.info.pausedAt < Origin(s) <= now then Held(s) else 0) + s.info.rate * SatSub(now, Max(s.info.pausedAt, Origin(s)))
  }

  /** By how much setting a cliff moves the value already earned: under a checkpoint not at all, otherwise it
      is replaced by what the cliff pays. */
  function CliffMoves(s: Stream, now: nat, c: Cliff): int {
    var e := EffectiveNow(s.info, now);
    if now < s.info.start || s.checkpoint.Some? then 0
    else (if e < c.time then 0 else c.unlock + s.info.rate * (e - c.time)) - Value(s, e)
  }

  /** By how much a rate change moves it: with a cliff ahead, all of it is gone. */
  function RateMoves(s: Stream, now: nat): int {
    if now < s.info.start || s.cliff.None? || s.cliff.value.time <= ChangeTime(s, now) then 0
    else -Value(s, EffectiveNow(s.info, now))
  }

  /** One second, or one entry-point call; a failing call changes nothing. */
  function Step(m: Meter, e: Event): Meter {
    var s := m.stream;
    match e
    case Tick => Meter(s, m.now + 1, m.earned + SecondEarns(s, m.now), m.caughtUp, m.moved)
    case Paused => if Pause(s, m.now).Err? then m else m.(stream := Pause(s, m.now).value)
    case Resumed =>
      if Resume(s, m.now).Err? then m
      else m.(stream := Resume(s, m.now).value, caughtUp := m.caughtUp + CatchUp(s, m.now))
    case RateChanged(newRate) =>
      if ChangeRate(s, m.now, newRate).Err? then m
      else m.(stream := ChangeRate(s, m.now, newRate).value, moved := m.moved + RateMoves(s, m.now))
    case CliffSet(cliff) =>
      if SetCliff(s, cliff).Err? then m
      else m.(stream := SetCliff(s, cliff).value, moved := m.moved + CliffMoves(s, m.now, cliff))
  }

  function Run(m: Meter, events: seq<Event>): Meter {
    if events == [] then m else Step(Run(m, events[..|events| - 1]), events[|events| - 1])
  }

  function Total(m: Meter): int { m.earned + m.caughtUp + m.moved }

  /** The stream as created at `now`. */
  function Fresh(rate: int, start: nat, end: nat, now: nat): Meter {
    Meter(Created(rate, start, end), now, 0, 0, 0)
  }

  ghost predicate Inv(m: Meter) {
    var s, info := m.stream, m.stream.info;
    && Orderly(s) && 0 <= m.caughtUp && (s.cliff.None? ==> m.caughtUp == m.moved == 0)
    && (info.end > 0 ==> Origin(s) <= info.end && (s.cliff.Some? ==> s.cliff.value.time <= info.end))
    && (info.paused ==> info.pausedAt <= m.now)
    && (s.cliff.None? && info.start <= m.now ==> Origin(s) <= EffectiveNow(info, m.now))
    && (if m.now < info.start then
          !info.paused && Total(m) == 0 && info.start <= Origin(s) && (s.cliff.Some? ==> info.start <= s.cliff.value.time)
          && (s.cliff.None? ==> Origin(s) == info.start && Held(s) == 0)
        else Total(m) == Value(s, EffectiveNow(info, m.now)))
  }

  lemma InvMeasures(m: Meter)
    requires Inv(m)
    ensures StreamedAmount(m.stream, m.now) == Checked(Total(m)) && Total(m) >= 0
    ensures m.caughtUp >= 0 && (m.stream.cliff.None? ==> m.caughtUp == m.moved == 0)
  {
    if m.stream.info.start <= m.now {
      StreamedIsValue(m.stream, m.now);
    }
  }

  lemma TickKeeps(m: Meter)
    requires Inv(m)
    ensures Inv(Step(m, Tick))
  {
    hide StreamedAmount;
    var s := m.stream;
    if s.info.start <= m.now && Origin(s) <= EffectiveNow(s.info, m.now) {
      MulSplit(s.info.rate, EffectiveNow(s.info, m.now) - Origin(s), 1);
    }
  }

  lemma PauseKeeps(m: Meter)
    requires Inv(m)
    ensures Inv(Step(m, Paused))
  {
    hide StreamedAmount;
  }

  lemma ResumeKeeps(m: Meter)
    requires Inv(m)
    ensures Inv(Step(m, Resumed))
  {
    hide StreamedAmount;
    if Resume(m.stream, m.now).Ok? {
      var s, s' := m.stream, Resume(m.stream, m.now).value;
      var p, d := s.info.pausedAt, m.now - s.info.pausedAt;
      assert Held(s') == Held(s);
      assert EffectiveNow(s.info, m.now) == p && EffectiveNow(s'.info, m.now) == m.now;
      if OriginMoves(s) {
        assert Origin(s') == Origin(s) + d;
      } else {
        assert Origin(s') == Origin(s);
        if Origin(s) <= p {
          MulSplit(s.info.rate, p - Origin(s), d);
        }
        MulMonotone(s.info.rate, 0, SatSub(m.now, Max(p, Origin(s))));
      }
    }
  }

  lemma ChangeRateKeeps(m: Meter, newRate: int)
    requires Inv(m)
    ensures Inv(Step(m, RateChanged(newRate)))
  {
    hide StreamedAmount, Pause, Resume, SetCliff, SecondEarns, CatchUp, CliffMoves;
    InvMeasures(m);
  }

  lemma SetCliffKeeps(m: Meter, cliff: Cliff)
    requires Inv(m)
    ensures Inv(Step(m, CliffSet(cliff)))
  {
    hide StreamedAmount;
  }

  lemma StepKeeps(m: Meter, e: Event)
    requires Inv(m)
    ensures Inv(Step(m, e))
    ensures !e.CliffSet? ==> Step(m, e).stream.cliff == m.stream.cliff
  {
    hide Inv, StreamedAmount;
    match e {
      case Tick => TickKeeps(m);
      case Paused => PauseKeeps(m);
      case Resumed => ResumeKeeps(m);
      case RateChanged(newRate) => ChangeRateKeeps(m, newRate);
      case CliffSet(cliff) => SetCliffKeeps(m, cliff);
    }
  }

  lemma FreshKeeps(rate: int, start: nat, end: nat, now: nat)
    requires 0 < rate && now <= start && (end > 0 ==> start < end)
    ensures Inv(Fresh(rate, start, end, now))
  {
  }

  /** Over any lifecycle the streamed amount is the sum of three accounts (or the overflow error if that exceeds
      128 bits): what was earned second by second while the stream was running, at the rate then in force;
      what resumptions paid for pauses over which a cliff kept the origin of accrual in place; and by how much
      setting cliffs, and changing the rate ahead of one, moved value already earned. As long as no cliff is
      set the last two are nothing: pauses, resumptions and rate changes never move the amount. */
  lemma {:induction false} StreamedIsEarned(rate: int, start: nat, end: nat, now: nat, events: seq<Event>)
    requires 0 < rate && now <= start && (end > 0 ==> start < end)
    ensures var m := Run(Fresh(rate, start, end, now), events);
            && Inv(m)
            && StreamedAmount(m.stream, m.now) == Checked(m.earned + m.caughtUp + m.moved)
            && m.caughtUp >= 0
            && ((forall e :: e in events ==> !e.CliffSet?) ==> m.caughtUp == m.moved == 0 && m.stream.cliff == None)
  {
    hide Inv, Step, StreamedAmount, Checked;
    var m0 := Fresh(rate, start, end, now);
    if events == [] {
      FreshKeeps(rate, start, end, now);
    } else {
      var n := |events| - 1;
      var before := Run(m0, events[..n]);
      StreamedIsEarned(rate, start, end, now, events[..n]);
      StepKeeps(before, events[n]);
      assert events[n] in events;
    }
    InvMeasures(Run(m0, events));
  }

  /** Resuming leaves the streamed amount alone exactly when the origin of accrual moves with the
      pause, or nothing can tell: an unreplaced cliff stays where it is and so accrues the pause. */
  lemma ResumeIsTransparent(s: Stream, now: nat)
    requires 0 < s.info.rate && 0 <= Held(s)
    requires s.info.paused && s.info.start <= s.info.pausedAt && (s.info.end > 0 ==> s.info.pausedAt <= s.info.end)
    requires Resume(s, now).Ok? && StreamedAmount(s, now).Ok?
    ensures StreamedAmount(Resume(s, now).value, now) == StreamedAmount(s, now) <==>
            || (Origin(s) <= s.info.pausedAt && (s.checkpoint.Some? || s.cliff.None?))
            || now == s.info.pausedAt || now < Origin(s) || (now == Origin(s) && Held(s) == 0)
  {
    var s' := Resume(s, now).value;
    assert EffectiveNow(s.info, now) == s.info.pausedAt && EffectiveNow(s'.info, now) == now;
    StreamedIsValue(s, now);
    StreamedIsValue(s', now);
    if Origin(s') == Origin(s) <= s.info.pausedAt < now {
      MulSplit(s.info.rate, s.info.pausedAt - Origin(s), now - s.info.pausedAt);
      MulMonotone(s.info.rate, 1, now - s.info.pausedAt);
    } else if s.info.pausedAt < Origin(s) < now {
      MulMonotone(s.info.rate, 1, now - Origin(s));
    }
  }

  /** The jump, on a stream unlocking 5 at its cliff: 3 seconds paused pay for 3 more seconds. */
  lemma CliffedResumeAccruesThePause()
    ensures var s := Stream(StreamInfo(10, 100, 1000, 0, true, 200), None, Some(Cliff(150, 5)));
            && Resume(s, 203).Ok?
            && StreamedAmount(s, 203) == Ok(505)
            && StreamedAmount(Resume(s, 203).value, 203) == Ok(535)
  {
  }

  /** A paused bounded stream is documented to accrue up to the later of pause and end. It accrues up to the
      earlier, so the documentation holds of it exactly when the two coincide. */
  lemma PausedUsesTheEarlier(info: StreamInfo, now: nat)
    requires info.paused && info.end > 0
    ensures EffectiveNow(info, now) == Min(info.pausedAt, info.end)
    ensures EffectiveNow(info, now) == Max(info.pausedAt, info.end) <==> info.pausedAt == info.end
  {
  }

  /** Paused halfway, a stream worth 1000 shows 500. */
  lemma PausedHalfwayShowsHalf(now: nat)
    requires now >= 150
    ensures StreamedAmount(Stream(StreamInfo(10, 100, 200, 0, true, 150), None, None), now) == Ok(500)
  {
  }
}
