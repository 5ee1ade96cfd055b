/** The trial orchestration in `main`: `iterations` rounds of ping, download
    and upload, each result pushed to its own list, any failure ending the
    whole run, then the three averages and a verdict banded on the average
    download speed. */
module Trials {
  import opened Transfer
  import Download
  import Upload

  /** What the HEAD request of the latency probe produced. */
  datatype PingOutcome = Pinged(millis: nat) | PingFailed(error: TransportError)

  /** Everything the network does during one trial. */
  datatype TrialInput = TrialInput(
    ping: PingOutcome,
    download: seq<Download.AttemptOutcome>,
    upload: Upload.UploadOutcome)

  /** The step whose error aborts a run. */
  datatype Stage = PingStage | DownloadStage | UploadStage

  /** One trial's three measurements, or the step that failed and its error. */
  datatype TrialResult =
    | Measured(pingMillis: nat, downloadMbps: real, uploadMbps: real)
    | TrialFailed(stage: Stage, error: TransportError)

  /** An average as the source computes it in floating point: dividing the
      sum of no values by zero trials gives NaN. */
  datatype Average = Mean(value: real) | NaN

  /** The three messages the run ends with: "Great performance",
      "Solid speeds", "Check 5G signal". */
  datatype Verdict = Great | Solid | CheckSignal

  datatype Summary = Summary(avgPing: Average, avgDownload: Average, avgUpload: Average, verdict: Verdict)

  /** A run either completes with all three lists and the summary, or is
      aborted by the first failing step (trials numbered from 1). */
  datatype RunResult =
    | Completed(pingTimes: seq<nat>, downloadSpeeds: seq<real>, uploadSpeeds: seq<real>, summary: Summary)
    | Aborted(trial: nat, stage: Stage, error: TransportError)

  /** The network results of a trial are usable by the model: the download
      loop has an outcome for each attempt, every timed body read took a
      positive time, and a POST's duration is not negative. */
  predicate ValidInput(t: TrialInput)
  {
    Download.ValidOutcomes(t.download) && (t.upload.Posted? ==> t.upload.seconds >= 0.0)
  }

  /** The result of one trial: ping, then download, then upload, stopping
      at the first error. A trial fails at a step exactly when every earlier
      step succeeded and that one failed, and then carries that step's
      error; it is measured exactly when all three succeed, and then holds
      the ping time, the download speed and the upload speed as written,
      the last under the 10.5 Mbps that the upload timer allows. */
  function Trial(t: TrialInput): (r: TrialResult)
    requires ValidInput(t)
    ensures r.Measured? <==>
              t.ping.Pinged? && Download.RetryOutcome(t.download).Downloaded? && t.upload.Posted?
    ensures (r.TrialFailed? && r.stage == PingStage) <==> t.ping.PingFailed?
    ensures (r.TrialFailed? && r.stage == DownloadStage) <==>
              t.ping.Pinged? && Download.RetryOutcome(t.download).DownloadFailed?
    ensures (r.TrialFailed? && r.stage == UploadStage) <==>
              t.ping.Pinged? && Download.RetryOutcome(t.download).Downloaded? && t.upload.PostFailed?
    ensures r.TrialFailed? && r.stage == PingStage ==> r.error == t.ping.error
    ensures r.TrialFailed? && r.stage == DownloadStage ==> r.error == Download.RetryOutcome(t.download).error
    ensures r.TrialFailed? && r.stage == UploadStage ==> r.error == t.upload.error
    ensures r.Measured? ==>
              r.pingMillis == t.ping.millis &&
              r.downloadMbps == Download.RetryOutcome(t.download).mbps &&
              r.uploadMbps == Upload.UploadSpeedAsWritten(t.upload.seconds) &&
              r.uploadMbps < 10.5
  {
    match t.ping
    case PingFailed(e) => TrialFailed(PingStage, e)
    case Pinged(ms) =>
      match Download.RetryOutcome(t.download)
      case DownloadFailed(_, _, e) => TrialFailed(DownloadStage, e)
      case Downloaded(_, _, _, dl) =>
        match t.upload
        case PostFailed(e) => TrialFailed(UploadStage, e)
        case Posted(seconds) =>
          Upload.AsWrittenSpeedCapped(seconds);
          Measured(ms, dl, Upload.UploadSpeedAsWritten(seconds))
  }

  function SumReal(xs: seq<real>): real
  {
    if xs == [] then 0.0 else xs[0] + SumReal(xs[1..])
  }

  /** `sum / iterations` in floating point: a number exactly when there is
      at least one iteration, and then it times the count gives back the
      sum. */
  function AverageOf(total: real, n: nat): (avg: Average)
    ensures avg.Mean? <==> n >= 1
    ensures avg.Mean? ==> avg.value * n as real == total
  {
    if n == 0 then NaN else Mean(total / n as real)
  }

  /** The verdict: above 25 Mbps is great, above 10 is solid, anything else
      (including NaN, for which both comparisons are false) asks to check the
      signal. The three bands are exclusive and cover every average. */
  function VerdictFor(avgDownload: Average): (v: Verdict)
    ensures v == Great <==> avgDownload.Mean? && avgDownload.value > 25.0
    ensures v == Solid <==> avgDownload.Mean? && 10.0 < avgDownload.value <= 25.0
    ensures v == CheckSignal <==> avgDownload.NaN? || avgDownload.value <= 10.0
  {
    match avgDownload
    case NaN => CheckSignal
    case Mean(v) => if v > 25.0 then Great else if v > 10.0 then Solid else CheckSignal
  }

  /** The final results: each average is its list's sum over the iteration
      count (NaN for none), and the verdict is banded on the download
      average. */
  function Summarize(pings: seq<nat>, downloads: seq<real>, uploads: seq<real>, iterations: nat): (s: Summary)
    ensures iterations >= 1 ==>
              s.avgPing.Mean? && s.avgPing.value * iterations as real == Sum(pings) as real &&
              s.avgDownload.Mean? && s.avgDownload.value * iterations as real == SumReal(downloads) &&
              s.avgUpload.Mean? && s.avgUpload.value * iterations as real == SumReal(uploads)
    ensures iterations == 0 ==> s.avgPing.NaN? && s.avgDownload.NaN? && s.avgUpload.NaN?
    ensures s.verdict == VerdictFor(s.avgDownload)
  {
    var avgDownload := AverageOf(SumReal(downloads), iterations);
    Summary(AverageOf(Sum(pings) as real, iterations), avgDownload,
            AverageOf(SumReal(uploads), iterations), VerdictFor(avgDownload))
  }

  /** The run as `main` performs it. It completes exactly when every trial
      succeeds, and then each list holds exactly `iterations` entries, entry
      i being trial i's measurement, and the summary averages them. Otherwise
      it reports the first trial that failed and the step that failed in it;
      every trial before it succeeded. */
  method RunTrials(iterations: nat, inputs: seq<TrialInput>) returns (r: RunResult)
    requires |inputs| == iterations
    requires forall i :: 0 <= i < |inputs| ==> ValidInput(inputs[i])
    ensures r.Completed? <==> forall i :: 0 <= i < iterations ==> Trial(inputs[i]).Measured?
    ensures r.Completed? ==>
              |r.pingTimes| == iterations && |r.downloadSpeeds| == iterations && |r.uploadSpeeds| == iterations &&
              (forall i :: 0 <= i < iterations ==>
                 Trial(inputs[i]) == Measured(r.pingTimes[i], r.downloadSpeeds[i], r.uploadSpeeds[i])) &&
              r.summary == Summarize(r.pingTimes, r.downloadSpeeds, r.uploadSpeeds, iterations)
    ensures r.Aborted? ==>
              1 <= r.trial <= iterations &&
              (forall i :: 0 <= i < r.trial - 1 ==> Trial(inputs[i]).Measured?) &&
              Trial(inputs[r.trial - 1]) == TrialFailed(r.stage, r.error)
  {
    var pingTimes: seq<nat> := [];
    var downloadSpeeds: seq<real> := [];
    var uploadSpeeds: seq<real> := [];
    for i := 0 to iterations
      invariant |pingTimes| == i && |downloadSpeeds| == i && |uploadSpeeds| == i
      invariant forall j :: 0 <= j < i ==>
                  Trial(inputs[j]) == Measured(pingTimes[j], downloadSpeeds[j], uploadSpeeds[j])
    {
      var input := inputs[i];
      match input.ping {
        case PingFailed(e) =>
          return Aborted(i + 1, PingStage, e);
        case Pinged(ms) =>
          pingTimes := pingTimes + [ms];
      }
      var dl := Download.MeasureDownload(input.download);
      if dl.DownloadFailed? {
        return Aborted(i + 1, DownloadStage, dl.error);
      }
      downloadSpeeds := downloadSpeeds + [dl.mbps];
      var ul := Upload.MeasureUpload(input.upload);
      if ul.UploadFailed? {
        return Aborted(i + 1, UploadStage, ul.error);
      }
      uploadSpeeds := uploadSpeeds + [ul.mbps];
    }
    r := Completed(pingTimes, downloadSpeeds, uploadSpeeds, Summarize(pingTimes, downloadSpeeds, uploadSpeeds, iterations));
  }

  function Rank(v: Verdict): nat
  {
    match v
    case CheckSignal => 0
    case Solid => 1
    case Great => 2
  }

  /** A faster average never gets a worse verdict. */
  lemma VerdictMonotone(a: real, b: real)
    requires a <= b
    ensures Rank(VerdictFor(Mean(a))) <= Rank(VerdictFor(Mean(b)))
  {
  }

  /** Bounds on every entry bound the sum. */
  lemma {:induction false} SumBounds(xs: seq<real>, lo: real, hi: real)
    requires forall i :: 0 <= i < |xs| ==> lo <= xs[i] <= hi
    ensures |xs| as real * lo <= SumReal(xs) <= |xs| as real * hi
  {
    if xs != [] {
      SumBounds(xs[1..], lo, hi);
      assert |xs| as real * lo == lo + |xs[1..]| as real * lo;
      assert |xs| as real * hi == hi + |xs[1..]| as real * hi;
    }
  }

  /** A strict lower bound on every entry is a strict bound on the sum of a
      non-empty list. */
  lemma {:induction false} SumAbove(xs: seq<real>, lo: real)
    requires |xs| >= 1 && forall i :: 0 <= i < |xs| ==> lo < xs[i]
    ensures |xs| as real * lo < SumReal(xs)
  {
    if |xs| > 1 {
      SumAbove(xs[1..], lo);
      assert |xs| as real * lo == lo + |xs[1..]| as real * lo;
    } else {
      assert SumReal(xs[1..]) == 0.0;
    }
  }

  /** Dividing by a positive count keeps a sum's relation to the count times
      a bound as the quotient's relation to that bound. */
  lemma DivBound(total: real, n: real, bound: real)
    requires n > 0.0
    ensures total <= n * bound ==> total / n <= bound
    ensures total >= n * bound ==> total / n >= bound
    ensures total > n * bound ==> total / n > bound
  {
    var m := total / n;
    assert m * n == total;
    assert (m - bound) * n == total - n * bound;
  }

  /** The average of a completed run lies between the smallest and the
      largest entry. */
  lemma MeanWithinBounds(xs: seq<real>, lo: real, hi: real)
    requires |xs| >= 1 && forall i :: 0 <= i < |xs| ==> lo <= xs[i] <= hi
    ensures AverageOf(SumReal(xs), |xs|).Mean?
    ensures lo <= AverageOf(SumReal(xs), |xs|).value <= hi
  {
    SumBounds(xs, lo, hi);
    DivBound(SumReal(xs), |xs| as real, lo);
    DivBound(SumReal(xs), |xs| as real, hi);
  }

  /** The average of a non-empty series whose entries all exceed a bound
      exceeds it too. */
  lemma MeanAbove(xs: seq<real>, lo: real)
    requires |xs| >= 1 && forall i :: 0 <= i < |xs| ==> lo < xs[i]
    ensures AverageOf(SumReal(xs), |xs|).Mean? && AverageOf(SumReal(xs), |xs|).value > lo
  {
    SumAbove(xs, lo);
    DivBound(SumReal(xs), |xs| as real, lo);
  }

  /** An upper bound on every entry bounds the sum. */
  lemma {:induction false} SumAtMost(xs: seq<real>, hi: real)
    requires forall i :: 0 <= i < |xs| ==> xs[i] <= hi
    ensures SumReal(xs) <= |xs| as real * hi
  {
    if xs != [] {
      SumAtMost(xs[1..], hi);
      assert |xs| as real * hi == hi + |xs[1..]| as real * hi;
    }
  }

  /** The average of a non-empty series whose entries are all at most a
      bound is at most that bound. */
  lemma MeanAtMost(xs: seq<real>, hi: real)
    requires |xs| >= 1 && forall i :: 0 <= i < |xs| ==> xs[i] <= hi
    ensures AverageOf(SumReal(xs), |xs|).Mean? && AverageOf(SumReal(xs), |xs|).value <= hi
  {
    SumAtMost(xs, hi);
    DivBound(SumReal(xs), |xs| as real, hi);
  }

  /** If every trial downloaded faster than 25 Mbps the verdict is great;
      if every trial downloaded at 10 Mbps or less it asks to check the
      signal. */
  lemma UniformTrialsVerdict(pings: seq<nat>, downloads: seq<real>, uploads: seq<real>)
    requires |downloads| >= 1
    ensures (forall i :: 0 <= i < |downloads| ==> downloads[i] > 25.0) ==>
              Summarize(pings, downloads, uploads, |downloads|).verdict == Great
    ensures (forall i :: 0 <= i < |downloads| ==> downloads[i] <= 10.0) ==>
              Summarize(pings, downloads, uploads, |downloads|).verdict == CheckSignal
  {
    if forall i :: 0 <= i < |downloads| ==> downloads[i] > 25.0 {
      MeanAbove(downloads, 25.0);
    }
    if forall i :: 0 <= i < |downloads| ==> downloads[i] <= 10.0 {
      MeanAtMost(downloads, 10.0);
    }
  }

  /** Three trials at 50, 60 and 70 Mbps average 60 Mbps: great. */
  lemma ThreeTrialScenario(pings: seq<nat>, uploads: seq<real>)
    ensures Summarize(pings, [50.0, 60.0, 70.0], uploads, 3).avgDownload == Mean(60.0)
    ensures Summarize(pings, [50.0, 60.0, 70.0], uploads, 3).verdict == Great
  {
    assert SumReal([50.0, 60.0, 70.0]) == 180.0 by {
      assert [50.0, 60.0, 70.0][1..] == [60.0, 70.0];
      assert [60.0, 70.0][1..] == [70.0];
      assert [70.0][1..] == [];
    }
  }

  /** With zero iterations the averages are NaN and the verdict asks to
      check the signal, as the floating-point code does. */
  lemma NoTrialsSummary()
    ensures Summarize([], [], [], 0) == Summary(NaN, NaN, NaN, CheckSignal)
  {
  }
}
