/** The upload benchmark (`measure_upload_with_progress`): a fixed 10 MiB
    payload is POSTed while a background task advances the progress bar in
    fixed steps, because the HTTP client does not report upload progress.
    The task's sleeps become a tick count; its calls to `pb.inc` become the
    sequence of increments it hands to the bar. */
module Upload {
  import opened Transfer

  /** The payload size: 10 MiB. */
  const DataSize: nat := 10 * BytesPerMiB

  /** The simulation advances in steps of one fiftieth of the payload. */
  const Divisions: nat := 50

  /** The simulation sleeps 150 ms before each increment. */
  const TickSeconds: real := 0.15

  function Min(a: nat, b: nat): nat
  {
    if a <= b then a else b
  }

  /** The step size: `max(data_size / 50, 1)`. */
  function Step(dataSize: nat): (step: nat)
    ensures step >= 1
  {
    if dataSize / Divisions >= 1 then dataSize / Divisions else 1
  }

  /** The increments the simulation hands to the bar once it has counted
      `uploaded` of `total` bytes: each is the step, or what is left if that
      is less. */
  function Increments(total: nat, step: nat, uploaded: nat): seq<nat>
    requires step >= 1 && uploaded <= total
    decreases total - uploaded
  {
    if uploaded == total then []
    else
      var chunk := Min(step, total - uploaded);
      [chunk] + Increments(total, step, uploaded + chunk)
  }

  /** Ceiling division. */
  function CeilDiv(n: nat, d: nat): nat
    requires d >= 1
  {
    (n + d - 1) / d
  }

  /** The simulated progress loop: while fewer than `dataSize` bytes are
      counted, add the smaller of the step and what remains. It ends with
      the counter exactly at the payload size, having made exactly the
      increments `Increments` describes. */
  method SimulateProgress(dataSize: nat) returns (uploaded: nat, increments: seq<nat>)
    ensures uploaded == dataSize
    ensures increments == Increments(dataSize, Step(dataSize), 0)
    ensures Sum(increments) == dataSize
  {
    var step := Step(dataSize);
    uploaded := 0;
    increments := [];
    while uploaded < dataSize
      invariant uploaded <= dataSize
      invariant increments + Increments(dataSize, step, uploaded) == Increments(dataSize, step, 0)
      decreases dataSize - uploaded
    {
      var chunk := Min(step, dataSize - uploaded);
      assert Increments(dataSize, step, uploaded) == [chunk] + Increments(dataSize, step, uploaded + chunk);
      uploaded := uploaded + chunk;
      increments := increments + [chunk];
    }
    IncrementsSum(dataSize, step, 0);
  }

  /** The increments add up to exactly what remained: the bar ends full and
      never overshoots. */
  lemma {:induction false} IncrementsSum(total: nat, step: nat, uploaded: nat)
    requires step >= 1 && uploaded <= total
    ensures Sum(Increments(total, step, uploaded)) == total - uploaded
    decreases total - uploaded
  {
    if uploaded < total {
      var chunk := Min(step, total - uploaded);
      IncrementsSum(total, step, uploaded + chunk);
      var rest := Increments(total, step, uploaded + chunk);
      assert ([chunk] + rest)[1..] == rest;
    }
  }

  /** Every increment but the last is a full step; the last is between 1
      byte and a full step. */
  lemma {:induction false} IncrementsShape(total: nat, step: nat, uploaded: nat)
    requires step >= 1 && uploaded <= total
    ensures forall i :: 0 <= i < |Increments(total, step, uploaded)| ==>
              1 <= Increments(total, step, uploaded)[i] <= step
    ensures forall i :: 0 <= i < |Increments(total, step, uploaded)| - 1 ==>
              Increments(total, step, uploaded)[i] == step
    decreases total - uploaded
  {
    if uploaded < total {
      var chunk := Min(step, total - uploaded);
      IncrementsShape(total, step, uploaded + chunk);
      var rest := Increments(total, step, uploaded + chunk);
      var c := [chunk] + rest;
      assert c == Increments(total, step, uploaded);
      forall i | 0 <= i < |c| ensures 1 <= c[i] <= step {
        if i > 0 { assert c[i] == rest[i - 1]; }
      }
      forall i | 0 <= i < |c| - 1 ensures c[i] == step {
        if i > 0 { assert c[i] == rest[i - 1]; }
        else { assert uploaded + chunk < total; }
      }
    }
  }

  lemma MulBound(d: nat, k: int)
    requires d >= 1
    ensures k >= 1 ==> d * k >= d
    ensures k <= -1 ==> d * k <= -(d as int)
  {
  }

  lemma DivStep(m: nat, d: nat)
    requires d >= 1
    ensures (m + d) / d == m / d + 1
  {
    var q, r := m / d, m % d;
    var q2, r2 := (m + d) / d, (m + d) % d;
    assert d * q + r == m;
    assert d * q2 + r2 == m + d;
    var k := q2 - (q + 1);
    assert d * q2 == d * k + d * q + d;
    assert d * k == r - r2;
    MulBound(d, k);
  }

  lemma SmallDiv(m: nat, d: nat)
    requires m < d
    ensures m / d == 0
  {
  }

  /** Ceiling division of a positive count: one more than the floor of the
      count less one. */
  lemma CeilDivPositive(n: nat, d: nat)
    requires n >= 1 && d >= 1
    ensures CeilDiv(n, d) == (n - 1) / d + 1
  {
    DivStep(n - 1, d);
  }

  /** The loop makes `ceil(remaining / step)` passes. */
  lemma {:induction false} IncrementsCount(total: nat, step: nat, uploaded: nat)
    requires step >= 1 && uploaded <= total
    ensures |Increments(total, step, uploaded)| == CeilDiv(total - uploaded, step)
    decreases total - uploaded
  {
    var n := total - uploaded;
    if n == 0 {
      SmallDiv(step - 1, step);
    } else {
      var chunk := Min(step, n);
      IncrementsCount(total, step, uploaded + chunk);
      assert |Increments(total, step, uploaded)| == 1 + CeilDiv(n - chunk, step);
      CeilDivPositive(n, step);
      if n <= step {
        SmallDiv(step - 1, step);
        SmallDiv(n - 1, step);
      } else {
        assert n - chunk + step - 1 == n - 1;
      }
    }
  }

  lemma {:induction false} SumAppend(a: seq<nat>, b: seq<nat>)
    ensures Sum(a + b) == Sum(a) + Sum(b)
  {
    if a == [] {
      assert a + b == b;
    } else {
      SumAppend(a[1..], b);
      assert (a + b)[0] == a[0];
      assert (a + b)[1..] == a[1..] + b;
    }
  }

  lemma {:induction false} SumOfSteps(s: seq<nat>, step: nat)
    requires forall i :: 0 <= i < |s| ==> s[i] == step
    ensures Sum(s) == |s| * step
  {
    if s != [] {
      SumOfSteps(s[1..], step);
    }
  }

  /** The bar's position after any number of increments never exceeds the
      payload size, and it only moves forward. */
  lemma {:induction false} PrefixSumsBounded(s: seq<nat>, j: nat, k: nat)
    requires j <= k <= |s|
    ensures Sum(s[..j]) <= Sum(s[..k]) <= Sum(s)
  {
    assert s[..k] == s[..j] + s[j..k];
    SumAppend(s[..j], s[j..k]);
    assert s == s[..k] + s[k..];
    SumAppend(s[..k], s[k..]);
  }

  /** For the fixed 10 MiB payload the step is 209715 bytes, and the loop
      makes 51 passes: 50 full steps and a final 10-byte increment. */
  lemma FixedPayloadPasses()
    ensures Step(DataSize) == 209715
    ensures var c := Increments(DataSize, Step(DataSize), 0);
            |c| == 51 && c[50] == 10 && forall i :: 0 <= i < 50 ==> c[i] == 209715
  {
    var c := Increments(DataSize, Step(DataSize), 0);
    IncrementsCount(DataSize, 209715, 0);
    IncrementsShape(DataSize, 209715, 0);
    IncrementsSum(DataSize, 209715, 0);
    assert c == c[..50] + [c[50]];
    SumAppend(c[..50], [c[50]]);
    SumOfSteps(c[..50], 209715);
  }

  /** What the POST produced: the time it took, or the client's error. */
  datatype UploadOutcome = Posted(seconds: real) | PostFailed(error: TransportError)

  /** The speed and the bar's final position, or the error. */
  datatype UploadResult = Uploaded(mbps: real, progress: nat) | UploadFailed(error: TransportError)

  /** The upload speed when the timer covers the POST and nothing else:
      the 80 megabits of the payload over that time. */
  function UploadSpeed(postSeconds: real): (mbps: real)
    requires postSeconds > 0.0
    ensures mbps * postSeconds == 80.0
  {
    SpeedMbps(DataSize, postSeconds)
  }

  /** The time the simulation takes: one tick before each of its passes. */
  function ProgressSeconds(): (seconds: real)
    ensures seconds == 7.65
  {
    FixedPayloadPasses();
    |Increments(DataSize, Step(DataSize), 0)| as real * TickSeconds
  }

  /** The upload timer's reading as written: `start` is taken before the
      simulation task is spawned and read only after that task has been
      joined, so the reading covers the POST and every tick of the
      simulation, whichever ends later. */
  function UploadSecondsAsWritten(postSeconds: real): (seconds: real)
    ensures seconds >= postSeconds && seconds >= 7.65
    ensures seconds == postSeconds || seconds == 7.65
  {
    if postSeconds >= ProgressSeconds() then postSeconds else ProgressSeconds()
  }

  /** The upload speed as written: the payload's 80 megabits over that
      reading, never more than the speed of the POST alone. */
  function UploadSpeedAsWritten(postSeconds: real): (mbps: real)
    requires postSeconds >= 0.0
    ensures mbps * UploadSecondsAsWritten(postSeconds) == 80.0
    ensures postSeconds > 0.0 ==> mbps <= UploadSpeed(postSeconds)
  {
    if postSeconds > 0.0 then
      SpeedMonotone(DataSize, DataSize, UploadSecondsAsWritten(postSeconds), postSeconds);
      SpeedMbps(DataSize, UploadSecondsAsWritten(postSeconds))
    else
      SpeedMbps(DataSize, UploadSecondsAsWritten(postSeconds))
  }

  /** As written, no upload can report more than 80 / 7.65, about
      10.46 Mbps, however fast the link is. */
  lemma AsWrittenSpeedCapped(postSeconds: real)
    requires postSeconds >= 0.0
    ensures UploadSpeedAsWritten(postSeconds) <= SpeedMbps(DataSize, 7.65)
    ensures UploadSpeedAsWritten(postSeconds) < 10.5
  {
    var t := if postSeconds >= 7.65 then postSeconds else 7.65;
    SpeedMonotone(DataSize, DataSize, t, 7.65);
  }

  /** A POST that takes one second (an 80 Mbps link) is reported as about
      10.46 Mbps as written, against 80 Mbps when only the POST is timed. */
  lemma AsWrittenUnderreports()
    ensures UploadSpeed(1.0) == 80.0
    ensures UploadSpeedAsWritten(1.0) < 10.5
  {
    AsWrittenSpeedCapped(1.0);
  }

  /** A POST that takes 4 seconds would be 20 Mbps if only the POST were
      timed; as written the timer reads the simulation's 7.65 seconds, and
      the reported speed is 80 / 7.65. */
  lemma FourSecondPostAsWritten()
    ensures UploadSpeed(4.0) == 20.0
    ensures UploadSecondsAsWritten(4.0) == 7.65
    ensures UploadSpeedAsWritten(4.0) == 80.0 / 7.65
  {
    TenMiBInFourSeconds();
  }

  /** The upload benchmark: a failed POST (or a failed read of its response)
      is returned at once, with no retry. Otherwise the simulation runs to
      completion, leaving the bar at exactly the payload size, and the
      timer, read after the simulation is joined, covers the POST or the
      simulation's ticks, whichever ends later. */
  method MeasureUpload(post: UploadOutcome) returns (r: UploadResult)
    requires post.Posted? ==> post.seconds >= 0.0
    ensures r.UploadFailed? <==> post.PostFailed?
    ensures post.PostFailed? ==> r.error == post.error
    ensures post.Posted? ==> r.mbps == UploadSpeedAsWritten(post.seconds) && r.progress == DataSize
  {
    match post {
      case PostFailed(e) =>
        r := UploadFailed(e);
      case Posted(postSeconds) =>
        var uploaded, increments := SimulateProgress(DataSize);
        var progressSeconds := |increments| as real * TickSeconds;
        var elapsed := if postSeconds >= progressSeconds then postSeconds else progressSeconds;
        r := Uploaded(SpeedMbps(DataSize, elapsed), Sum(increments));
    }
  }
}
