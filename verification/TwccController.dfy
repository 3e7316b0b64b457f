/** The sender bandwidth estimation handler, over the reals. */
module TwccController {
  import opened Basics

  const ADJUSTMENT_INTERVAL_US: nat := 1000 * 10000
  const MIN_VIDEO_KBPS: nat := 512
  const MAX_VIDEO_KBPS: nat := 2048000
  const MIN_AUDIO_BPS: nat := 4000
  const MAX_AUDIO_BPS: nat := 650000

  /** One feedback report and what the handler reads when it comes in. */
  datatype Report = Report(sent: nat, received: nat, nowUs: nat, videoBps: nat, audioBps: nat)

  // ------------------------------------------------------------------ loss

  /** The loss in percent. The number of lost packets and its hundredfold are 32-bit numbers. */
  function PercentLost(sent: nat, received: nat): real {
    if sent > 0 then ((sent as int - received as int) % TWO_32 * 100 % TWO_32) as real / sent as real else 0.0
  }

  /** The percentage is right exactly when its numerator does not wrap. */
  lemma PercentExact(sent: nat, received: nat)
    requires received <= sent && sent > 0
    ensures PercentLost(sent, received) == (sent - received) as real * 100.0 / sent as real
       <==> (sent - received) * 100 < TWO_32
  {
    var lost := sent - received;
    Wrapped(lost);
    var shown := lost % TWO_32 * 100 % TWO_32;
    assert PercentLost(sent, received) == shown as real / sent as real;
    SameQuotient(shown as real, (lost * 100) as real, sent as real);
    assert (lost * 100) as real == lost as real * 100.0;
  }

  lemma Wrapped(lost: nat)
    ensures lost % TWO_32 * 100 % TWO_32 == lost * 100 <==> lost * 100 < TWO_32
  {
  }

  lemma SameQuotient(a: real, b: real, d: real)
    requires d > 0.0
    ensures a / d == b / d <==> a == b
  {
  }

  lemma PercentInRange(sent: nat, received: nat)
    requires received <= sent && (sent - received) * 100 < TWO_32
    ensures 0.0 <= PercentLost(sent, received) <= 100.0
  {
    if sent > 0 {
      PercentExact(sent, received);
      Quotient((sent - received) as real * 100.0, sent as real);
    }
  }

  lemma Quotient(a: real, d: real)
    requires d > 0.0 && 0.0 <= a <= 100.0 * d
    ensures 0.0 <= a / d <= 100.0
  {
  }

  /** The exponential moving average. */
  function NextAverage(average: real, percent: real): real {
    0.05 * percent + 0.95 * average
  }

  function Decay(n: nat): real {
    if n == 0 then 1.0 else 0.95 * Decay(n - 1)
  }

  /** The average after `n` reports that all lost `percent`. */
  function AfterLoss(average: real, percent: real, n: nat): real {
    if n == 0 then average else NextAverage(AfterLoss(average, percent, n - 1), percent)
  }

  /** Constant loss draws the average to itself. */
  lemma {:induction false} ConstantLoss(average: real, percent: real, n: nat)
    ensures AfterLoss(average, percent, n) == percent + Decay(n) * (average - percent)
  {
    if n > 0 {
      ConstantLoss(average, percent, n - 1);
      Distribute(Decay(n - 1), average - percent);
    }
  }

  lemma Distribute(d: real, x: real)
    ensures 0.95 * (d * x) == (0.95 * d) * x
  {
  }

  lemma {:induction false} DecayAdds(m: nat, n: nat)
    ensures Decay(m + n) == Decay(m) * Decay(n)
  {
    if m > 0 {
      DecayAdds(m - 1, n);
    }
  }

  lemma Bounds(a: real, b: real, aLow: real, aHigh: real, bLow: real, bHigh: real)
    requires 0.0 <= aLow <= a <= aHigh && 0.0 <= bLow <= b <= bHigh
    ensures aLow * bLow <= a * b <= aHigh * bHigh
  {
  }

  lemma DecayBounds(m: nat, n: nat, aLow: real, aHigh: real, bLow: real, bHigh: real)
    requires 0.0 <= aLow <= Decay(m) <= aHigh && 0.0 <= bLow <= Decay(n) <= bHigh
    ensures aLow * bLow <= Decay(m + n) <= aHigh * bHigh
  {
    DecayAdds(m, n);
    Bounds(Decay(m), Decay(n), aLow, aHigh, bLow, bHigh);
  }

  const RECOVERY: nat := 59

  /** Fifty-nine is the number of steps to a twentieth. */
  lemma DecayTwentieth()
    ensures Decay(58) > 0.05 && 0.0 <= Decay(59) <= 0.05
  {
    assert Decay(1) == 0.95;
    DecayBounds(1, 1, 0.95, 0.95, 0.95, 0.95);
    DecayBounds(2, 2, 0.9025, 0.9025, 0.9025, 0.9025);
    DecayBounds(4, 4, 0.8145, 0.81451, 0.8145, 0.81451);
    DecayBounds(8, 8, 0.6634, 0.66343, 0.6634, 0.66343);
    DecayBounds(16, 16, 0.4401, 0.44014, 0.4401, 0.44014);
    DecayBounds(32, 16, 0.19368, 0.19373, 0.4401, 0.44014);
    DecayBounds(48, 8, 0.08523, 0.08527, 0.6634, 0.66343);
    DecayBounds(56, 2, 0.05654, 0.05658, 0.9025, 0.9025);
    DecayBounds(58, 1, 0.05102, 0.05107, 0.95, 0.95);
  }

  /** From any average in range, 59 reports of constant loss bring it within five percent of that loss. */
  lemma Converges(average: real, percent: real, n: nat)
    requires 0.0 <= average <= 100.0 && 0.0 <= percent <= 100.0 && n == RECOVERY
    ensures percent - 5.0 <= AfterLoss(average, percent, n) <= percent + 5.0
  {
    DecayTwentieth();
    ConstantLoss(average, percent, n);
    Twentieth(Decay(n), average - percent);
  }

  lemma Twentieth(d: real, x: real)
    requires 0.0 <= d <= 0.05 && -100.0 <= x <= 100.0
    ensures -5.0 <= d * x <= 5.0
  {
    if x >= 0.0 {
      Bounds(d, x, 0.0, 0.05, 0.0, 100.0);
    } else {
      Bounds(d, -x, 0.0, 0.05, 0.0, 100.0);
      assert d * -x == -(d * x);
    }
  }

  /** 59 loss-free reports bring the average to the level at which rates are raised. */
  lemma Recovers(average: real, n: nat)
    requires 0.0 <= average <= 100.0 && n == RECOVERY
    ensures AfterLoss(average, 0.0, n) <= 5.0
  {
    Converges(average, 0.0, n);
  }

  /** After total loss 58 are not enough. */
  lemma RecoversNoSooner()
    ensures AfterLoss(100.0, 0.0, 58) > 5.0
  {
    DecayTwentieth();
    var n := 58;
    ConstantLoss(100.0, 0.0, n);
  }

  // ------------------------------------------------------------------ rates

  function Raised(rate: nat, max: nat): nat {
    if rate as real * 1.05 < max as real then (rate as real * 1.05).Floor else max
  }

  function Lowered(rate: nat, average: real, min: nat): nat
    requires average <= 100.0
  {
    Scaled(rate, average);
    var scaled := rate as real * (1.0 - average / 100.0);
    if scaled > min as real then scaled.Floor else min
  }

  lemma Scaled(rate: nat, average: real)
    requires average <= 100.0
    ensures rate as real * (1.0 - average / 100.0) >= 0.0
    ensures average >= 0.0 ==> rate as real * (1.0 - average / 100.0) <= rate as real
  {
  }

  /** `raised` is five percent more than `rate`, rounded down, or the maximum if that is less. */
  predicate RaisedTo(rate: nat, max: nat, raised: nat) {
    && raised <= max
    && (raised < max <==> rate * 105 < max * 100)
    && (raised < max ==> raised * 100 <= rate * 105 < (raised + 1) * 100)
  }

  lemma RaisedInRange(rate: nat, max: nat)
    ensures RaisedTo(rate, max, Raised(rate, max))
    ensures rate <= max ==> rate <= Raised(rate, max)
  {
  }

  /** `lowered` is what the loss leaves of `rate`, rounded down, or the minimum if that is more. */
  predicate LoweredTo(rate: nat, average: real, min: nat, lowered: nat) {
    var left := rate as real - rate as real * average / 100.0;
    && lowered >= min
    && left < lowered as real + 1.0
    && (lowered > min ==> lowered as real <= left)
  }

  lemma LoweredInRange(rate: nat, average: real, min: nat)
    requires 0.0 <= average <= 100.0
    ensures LoweredTo(rate, average, min, Lowered(rate, average, min))
    ensures Lowered(rate, average, min) <= if rate < min then min else rate
  {
    Scaled(rate, average);
  }

  datatype Rates = Rates(videoKbps: nat, audioBps: nat)

  class Controller {
    var averageLoss: real
    var lastAdjustmentUs: nat
    var rates: Rates
    var modified: bool

    ghost predicate Valid()
      reads this
    {
      0.0 <= averageLoss <= 100.0
    }

    constructor (averageLoss: real, lastAdjustmentUs: nat)
      ensures this.averageLoss == averageLoss && this.lastAdjustmentUs == lastAdjustmentUs && !modified
    {
      this.averageLoss, this.lastAdjustmentUs := averageLoss, lastAdjustmentUs;
      rates, modified := Rates(0, 0), false;
    }

    /** The handler. The clock has not gone back since the last adjustment. */
    method Handle(report: Report) returns (adjusted: bool)
      requires Valid() && Sane(report) && lastAdjustmentUs <= report.nowUs
      modifies this
      ensures Valid()
      ensures averageLoss == NextAverage(old(averageLoss), PercentLost(report.sent, report.received))
      ensures 20.0 * averageLoss == 19.0 * old(averageLoss) + PercentLost(report.sent, report.received)
      ensures adjusted <==> report.nowUs - old(lastAdjustmentUs) >= ADJUSTMENT_INTERVAL_US
      ensures lastAdjustmentUs == if adjusted then report.nowUs else old(lastAdjustmentUs)
      ensures modified == (old(modified) || adjusted)
      ensures rates == if adjusted then Suggested(report, averageLoss) else old(rates)
    {
      PercentInRange(report.sent, report.received);
      var percent := PercentLost(report.sent, report.received);
      averageLoss := NextAverage(averageLoss, percent);
      adjusted := report.nowUs - lastAdjustmentUs >= ADJUSTMENT_INTERVAL_US;
      if adjusted {
        var video, audio := report.videoBps / 1024, report.audioBps;
        if averageLoss <= 5.0 {
          video, audio := Raised(video, MAX_VIDEO_KBPS), Raised(audio, MAX_AUDIO_BPS);
        } else {
          video, audio := Lowered(video, averageLoss, MIN_VIDEO_KBPS), Lowered(audio, averageLoss, MIN_AUDIO_BPS);
        }
        rates, modified, lastAdjustmentUs := Rates(video, audio), true, report.nowUs;
      }
    }
  }

  predicate Sane(report: Report) {
    report.received <= report.sent && (report.sent - report.received) * 100 < TWO_32
  }

  function Suggested(report: Report, average: real): Rates
    requires average <= 100.0
  {
    if average <= 5.0 then Rates(Raised(report.videoBps / 1024, MAX_VIDEO_KBPS), Raised(report.audioBps, MAX_AUDIO_BPS))
    else Rates(Lowered(report.videoBps / 1024, average, MIN_VIDEO_KBPS),
               Lowered(report.audioBps, average, MIN_AUDIO_BPS))
  }

  /** What an adjustment suggests: both rates are raised up to a loss of five percent and lowered above it. */
  predicate InRange(rates: Rates, report: Report, average: real) {
    var video, audio := report.videoBps / 1024, report.audioBps;
    if average <= 5.0
    then RaisedTo(video, MAX_VIDEO_KBPS, rates.videoKbps) && RaisedTo(audio, MAX_AUDIO_BPS, rates.audioBps)
    else && LoweredTo(video, average, MIN_VIDEO_KBPS, rates.videoKbps)
         && LoweredTo(audio, average, MIN_AUDIO_BPS, rates.audioBps)
  }

  lemma SuggestedInRange(report: Report, average: real)
    requires 0.0 <= average <= 100.0
    ensures InRange(Suggested(report, average), report, average)
  {
    RaisedInRange(report.videoBps / 1024, MAX_VIDEO_KBPS);
    RaisedInRange(report.audioBps, MAX_AUDIO_BPS);
    LoweredInRange(report.videoBps / 1024, average, MIN_VIDEO_KBPS);
    LoweredInRange(report.audioBps, average, MIN_AUDIO_BPS);
  }

  /** An adjustment: which report led to it, and to what. */
  datatype Adjustment = Adjustment(report: nat, rates: Rates)

  ghost predicate Ordered(reports: seq<Report>, startUs: nat) {
    && (forall i :: 0 <= i < |reports| ==> Sane(reports[i]) && startUs <= reports[i].nowUs)
    && (forall i, j :: 0 <= i < j < |reports| ==> reports[i].nowUs <= reports[j].nowUs)
  }

  /** Every adjustment follows the one before it by the interval at least. */
  ghost predicate Spaced(reports: seq<Report>, adjustments: seq<Adjustment>) {
    && (forall k :: 0 <= k < |adjustments| ==> adjustments[k].report < |reports|)
    && (forall j, k :: 0 <= j < k < |adjustments| ==>
          reports[adjustments[k].report].nowUs >= reports[adjustments[j].report].nowUs + ADJUSTMENT_INTERVAL_US)
  }

  /** Every adjustment suggests rates in range. */
  ghost predicate Bounded(reports: seq<Report>, averages: seq<real>, adjustments: seq<Adjustment>)
    requires |averages| <= |reports|
  {
    forall k :: 0 <= k < |adjustments| ==>
      adjustments[k].report < |averages|
      && InRange(adjustments[k].rates, reports[adjustments[k].report], averages[adjustments[k].report])
  }

  lemma SpacedAppend(reports: seq<Report>, adjustments: seq<Adjustment>, next: Adjustment)
    requires Spaced(reports, adjustments) && next.report < |reports|
    requires adjustments != [] ==>
               reports[next.report].nowUs >=
               reports[adjustments[|adjustments| - 1].report].nowUs + ADJUSTMENT_INTERVAL_US
    ensures Spaced(reports, adjustments + [next])
  {
  }

  lemma BoundedAppend(
    reports: seq<Report>, averages: seq<real>, adjustments: seq<Adjustment>, average: real, next: Adjustment)
    requires |averages| < |reports| && Bounded(reports, averages, adjustments)
    requires next.report == |averages| && InRange(next.rates, reports[|averages|], average)
    ensures Bounded(reports, averages + [average], adjustments)
    ensures Bounded(reports, averages + [average], adjustments + [next])
  {
  }

  predicate Percentages(averages: seq<real>) {
    forall i :: 0 <= i < |averages| ==> 0.0 <= averages[i] <= 100.0
  }

  /** The time of the last adjustment. */
  ghost function LastUs(reports: seq<Report>, adjustments: seq<Adjustment>, startUs: nat): nat
    requires Spaced(reports, adjustments)
  {
    if adjustments == [] then startUs else reports[adjustments[|adjustments| - 1].report].nowUs
  }

  /** Each loss percentage moves the average on from the one before it. */
  ghost predicate Averaged(percents: seq<real>, average: real, averages: seq<real>) {
    && |percents| == |averages|
    && forall i {:trigger percents[i]} :: 0 <= i < |percents| ==>
         averages[i] == NextAverage(Before(average, averages, i), percents[i])
  }

  function Before(average: real, averages: seq<real>, i: nat): real
    requires i <= |averages|
  {
    if i == 0 then average else averages[i - 1]
  }

  lemma AveragedAppend(percents: seq<real>, average: real, averages: seq<real>, percent: real)
    requires Averaged(percents, average, averages)
    ensures Averaged(percents + [percent], average,
                     averages + [NextAverage(Before(average, averages, |averages|), percent)])
  {
  }

  /** While the loss is constant the averages are those of `AfterLoss`. */
  lemma {:induction false} ConstantInRun(
    percents: seq<real>, average: real, averages: seq<real>, percent: real, i: nat, n: nat)
    requires i + n <= |averages| && Averaged(percents, average, averages)
    requires forall k :: i <= k < i + n ==> percents[k] == percent
    ensures Before(average, averages, i + n) == AfterLoss(Before(average, averages, i), percent, n)
    decreases n
  {
    if n > 0 {
      ConstantInRun(percents, average, averages, percent, i, n - 1);
      assert percents[i + n - 1] == percent;
    }
  }

  /** A report that lost nothing, and one that lost everything. */
  predicate Intact(report: Report) {
    report.sent == report.received
  }

  predicate Total(report: Report) {
    report.sent > 0 && report.received == 0
  }

  lemma ExtremeLoss(report: Report)
    requires Sane(report)
    ensures Intact(report) ==> PercentLost(report.sent, report.received) == 0.0
    ensures Total(report) ==> PercentLost(report.sent, report.received) == 100.0
  {
    if Total(report) {
      PercentExact(report.sent, report.received);
      Whole(report.sent as real);
    }
  }

  lemma Whole(sent: real)
    requires sent > 0.0
    ensures sent * 100.0 / sent == 100.0
  {
  }

  /** The percentages of such reports. */
  ghost predicate Extremes(reports: seq<Report>, percents: seq<real>)
    requires |percents| <= |reports|
  {
    && (forall k :: 0 <= k < |percents| && Intact(reports[k]) ==> percents[k] == 0.0)
    && (forall k :: 0 <= k < |percents| && Total(reports[k]) ==> percents[k] == 100.0)
  }

  lemma ExtremesAppend(reports: seq<Report>, percents: seq<real>)
    requires |percents| < |reports| && Extremes(reports, percents) && Sane(reports[|percents|])
    ensures Extremes(reports, percents + [PercentLost(reports[|percents|].sent, reports[|percents|].received)])
  {
    ExtremeLoss(reports[|percents|]);
  }

  /** Reports `from` to `to` lost nothing, or everything. */
  ghost predicate AllIntact(reports: seq<Report>, from: nat, to: nat)
    requires to <= |reports|
  {
    forall k :: from <= k < to ==> Intact(reports[k])
  }

  ghost predicate AllTotal(reports: seq<Report>, from: nat, to: nat)
    requires to <= |reports|
  {
    forall k :: from <= k < to ==> Total(reports[k])
  }

  /** After any 59 reports in a row that lost nothing the average is at the level at which rates are raised; after any
      59 that lost everything it is 95 or more. */
  ghost predicate Follows(reports: seq<Report>, averages: seq<real>)
    requires |averages| <= |reports|
  {
    && (forall i :: RECOVERY <= i + 1 <= |averages| && AllIntact(reports, i + 1 - RECOVERY, i + 1) ==>
          averages[i] <= 5.0)
    && (forall i :: RECOVERY <= i + 1 <= |averages| && AllTotal(reports, i + 1 - RECOVERY, i + 1) ==>
          averages[i] >= 95.0)
  }

  lemma FollowsInRun(reports: seq<Report>, percents: seq<real>, average: real, averages: seq<real>)
    requires |averages| <= |reports| && Averaged(percents, average, averages) && Extremes(reports, percents)
    requires 0.0 <= average <= 100.0 && Percentages(averages)
    ensures Follows(reports, averages)
  {
    var n := RECOVERY;
    forall i | RECOVERY <= i + 1 <= |averages| && AllIntact(reports, i + 1 - RECOVERY, i + 1)
      ensures averages[i] <= 5.0
    {
      ConstantInRun(percents, average, averages, 0.0, i + 1 - n, n);
      Converges(Before(average, averages, i + 1 - n), 0.0, n);
    }
    forall i | RECOVERY <= i + 1 <= |averages| && AllTotal(reports, i + 1 - RECOVERY, i + 1)
      ensures averages[i] >= 95.0
    {
      ConstantInRun(percents, average, averages, 100.0, i + 1 - n, n);
      Converges(Before(average, averages, i + 1 - n), 100.0, n);
    }
  }

  /** An adjustment at a loss of 95 percent or more leaves at most a twentieth of a rate above the minimum. */
  lemma LowersUnderLoss(rate: nat, average: real, min: nat, lowered: nat)
    requires 95.0 <= average <= 100.0 && LoweredTo(rate, average, min, lowered)
    ensures lowered == min || (min < lowered && lowered * 20 <= rate)
  {
    var r := rate as real;
    var left := r - r * average / 100.0;
    Share(r, average, left);
    if lowered > min {
      assert lowered as real <= left;
      assert 20.0 * lowered as real == (lowered * 20) as real;
    }
  }

  lemma Share(rate: real, average: real, left: real)
    requires rate >= 0.0 && 95.0 <= average && left == rate - rate * average / 100.0
    ensures 20.0 * left <= rate
  {
    Bounds(rate, average, rate, rate, 95.0, average);
  }

  /** An adjustment after 59 reports that lost everything cuts both rates to a twentieth or to the minimum; one after
      59 that lost nothing raises both. */
  ghost predicate Heeds(reports: seq<Report>, a: Adjustment)
    requires a.report < |reports|
  {
    var i, video, audio := a.report, reports[a.report].videoBps / 1024, reports[a.report].audioBps;
    RECOVERY <= i + 1 ==>
      && (AllTotal(reports, i + 1 - RECOVERY, i + 1) ==>
            && (a.rates.videoKbps == MIN_VIDEO_KBPS || a.rates.videoKbps * 20 <= video)
            && (a.rates.audioBps == MIN_AUDIO_BPS || a.rates.audioBps * 20 <= audio))
      && (AllIntact(reports, i + 1 - RECOVERY, i + 1) ==>
            RaisedTo(video, MAX_VIDEO_KBPS, a.rates.videoKbps) && RaisedTo(audio, MAX_AUDIO_BPS, a.rates.audioBps))
  }

  lemma AdjustmentHeeds(reports: seq<Report>, averages: seq<real>, a: Adjustment)
    requires |averages| <= |reports| && Follows(reports, averages) && Percentages(averages)
    requires a.report < |averages| && InRange(a.rates, reports[a.report], averages[a.report])
    ensures Heeds(reports, a)
  {
    var i := a.report;
    if RECOVERY <= i + 1 && AllTotal(reports, i + 1 - RECOVERY, i + 1) {
      assert averages[i] >= 95.0;
      LowersUnderLoss(reports[i].videoBps / 1024, averages[i], MIN_VIDEO_KBPS, a.rates.videoKbps);
      LowersUnderLoss(reports[i].audioBps, averages[i], MIN_AUDIO_BPS, a.rates.audioBps);
    }
    if RECOVERY <= i + 1 && AllIntact(reports, i + 1 - RECOVERY, i + 1) {
      assert averages[i] <= 5.0;
    }
  }

  /** Any run under a clock that does not go back: the average stays a percentage and follows the loss, every
      adjustment raises or lowers both rates as the average demands, and two adjustments are never closer
      than the interval. */
  method Run(reports: seq<Report>, average: real, startUs: nat)
    returns (averages: seq<real>, adjustments: seq<Adjustment>)
    requires 0.0 <= average <= 100.0 && Ordered(reports, startUs)
    ensures |averages| == |reports| && Percentages(averages)
    ensures Follows(reports, averages)
    ensures Bounded(reports, averages, adjustments)
    ensures Spaced(reports, adjustments)
    ensures forall k :: 0 <= k < |adjustments| ==> Heeds(reports, adjustments[k])
  {
    var controller := new Controller(average, startUs);
    averages, adjustments := [], [];
    ghost var percents := [];
    for n := 0 to |reports|
      invariant fresh(controller) && controller.Valid()
      invariant |averages| == n && Percentages(averages)
      invariant Averaged(percents, average, averages) && Extremes(reports, percents)
      invariant controller.averageLoss == Before(average, averages, n)
      invariant Bounded(reports, averages, adjustments)
      invariant Spaced(reports, adjustments)
      invariant controller.lastAdjustmentUs == LastUs(reports, adjustments, startUs)
    {
      ghost var percent := PercentLost(reports[n].sent, reports[n].received);
      AveragedAppend(percents, average, averages, percent);
      ExtremesAppend(reports, percents);
      percents := percents + [percent];
      var adjusted := controller.Handle(reports[n]);
      SuggestedInRange(reports[n], controller.averageLoss);
      var next := Adjustment(n, Suggested(reports[n], controller.averageLoss));
      BoundedAppend(reports, averages, adjustments, controller.averageLoss, next);
      averages := averages + [controller.averageLoss];
      if adjusted {
        SpacedAppend(reports, adjustments, next);
        adjustments := adjustments + [Adjustment(n, controller.rates)];
      }
    }
    FollowsInRun(reports, percents, average, averages);
    forall k | 0 <= k < |adjustments| ensures Heeds(reports, adjustments[k]) {
      AdjustmentHeeds(reports, averages, adjustments[k]);
    }
  }
}
