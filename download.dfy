/** The download benchmark's retry loop (`measure_download_with_progress`).
    Each attempt issues a GET and, once the response headers arrive, starts
    the timer and reads the whole body. What the network does on each attempt
    is an input: `outcomes[k]` is what attempt number k + 1 sees. */
module Download {
  import opened Transfer

  /** The loop gives up after this many attempts. */
  const MaxAttempts: nat := 3

  /** Where an attempt failed: sending the request, or reading the body. */
  datatype Phase = Send | Body

  /** What one attempt produced. A failed attempt records how long it took;
      a received body records the time to the response headers and the time
      the body read took. Together they drive the wall clock that
      `MeasureDownload` keeps. */
  datatype AttemptOutcome =
    | Failed(phase: Phase, error: TransportError, wallSeconds: real)
    | Received(sendSeconds: real, bytes: nat, readSeconds: real)

  /** What the benchmark returns, with the attempt number that decided it. */
  datatype DownloadResult =
    | Downloaded(attempt: nat, bytes: nat, seconds: real, mbps: real)
    | DownloadFailed(attempt: nat, phase: Phase, error: TransportError)

  /** `pattern` occurs at offset `i` of `s`. */
  predicate OccursAt(s: string, pattern: string, i: nat)
  {
    i + |pattern| <= |s| && s[i..i + |pattern|] == pattern
  }

  /** Substring search as `str::contains` does it: the pattern is a prefix
      of `s` or occurs in its tail. */
  predicate Contains(s: string, pattern: string)
    decreases |s|
  {
    (|pattern| <= |s| && s[..|pattern|] == pattern) || (|s| > 0 && Contains(s[1..], pattern))
  }

  /** The search agrees with the positional definition of an occurrence. */
  lemma {:induction false} ContainsIff(s: string, pattern: string)
    ensures Contains(s, pattern) <==> exists i: nat :: OccursAt(s, pattern, i)
    decreases |s|
  {
    if |pattern| <= |s| && s[..|pattern|] == pattern {
      assert OccursAt(s, pattern, 0);
    }
    if |s| > 0 {
      ContainsIff(s[1..], pattern);
      if exists i: nat :: OccursAt(s[1..], pattern, i) {
        var i: nat :| OccursAt(s[1..], pattern, i);
        assert s[i + 1..i + 1 + |pattern|] == s[1..][i..i + |pattern|];
        assert OccursAt(s, pattern, i + 1);
      }
      if exists i: nat :: OccursAt(s, pattern, i) {
        var i: nat :| OccursAt(s, pattern, i);
        if i > 0 {
          assert s[1..][i - 1..i - 1 + |pattern|] == s[i..i + |pattern|];
          assert OccursAt(s[1..], pattern, i - 1);
        } else {
          assert s[..|pattern|] == s[i..i + |pattern|];
        }
      }
    } else if exists i: nat :: OccursAt(s, pattern, i) {
      var i: nat :| OccursAt(s, pattern, i);
      assert s[..|pattern|] == s[i..i + |pattern|];
    }
  }

  /** Whether a fault leads to another attempt (budget permitting). The two
      phases classify differently: a failed send is retried on a timeout or
      a connect error, a failed body read on a timeout or a message that
      mentions "reset". */
  predicate Retriable(phase: Phase, error: TransportError): (retried: bool)
    ensures error.isTimeout ==> retried
    ensures phase == Send ==> (retried <==> error.isTimeout || error.isConnect)
    ensures phase == Body ==>
              (retried <==> error.isTimeout || exists i: nat :: OccursAt(error.message, "reset", i))
  {
    ContainsIff(error.message, "reset");
    match phase
    case Send => error.isTimeout || error.isConnect
    case Body => Contains(error.message, "reset") || error.isTimeout
  }

  /** Attempt number `attempt` ends the loop when it receives the body, hits
      a fault that is not retried, or has used up the budget. */
  predicate Ends(outcome: AttemptOutcome, attempt: nat)
  {
    outcome.Received? || !Retriable(outcome.phase, outcome.error) || attempt >= MaxAttempts
  }

  /** Enough outcomes for every attempt the loop may make, and every
      measured body read took a positive time (the speed formula divides by
      it). */
  predicate ValidOutcomes(outcomes: seq<AttemptOutcome>)
  {
    MaxAttempts <= |outcomes| &&
    forall i :: 0 <= i < |outcomes| && outcomes[i].Received? ==> outcomes[i].readSeconds > 0.0
  }

  /** The loop's result once `made` attempts have failed retriably. It stops
      at the first attempt that ends the loop; every attempt before that one
      was a retried fault; and the result reports that attempt's body and
      timing, or its fault. */
  function RetryFrom(outcomes: seq<AttemptOutcome>, made: nat): (r: DownloadResult)
    requires ValidOutcomes(outcomes) && made < MaxAttempts
    ensures made < r.attempt <= MaxAttempts
    ensures forall j :: made <= j < r.attempt - 1 ==> !Ends(outcomes[j], j + 1)
    ensures Ends(outcomes[r.attempt - 1], r.attempt)
    ensures match outcomes[r.attempt - 1]
              case Received(_, bytes, seconds) => r == Downloaded(r.attempt, bytes, seconds, SpeedMbps(bytes, seconds))
              case Failed(phase, error, _) => r == DownloadFailed(r.attempt, phase, error)
    decreases MaxAttempts - made
  {
    var attempt := made + 1;
    match outcomes[made]
    case Received(_, bytes, seconds) => Downloaded(attempt, bytes, seconds, SpeedMbps(bytes, seconds))
    case Failed(phase, error, _) =>
      if Retriable(phase, error) && attempt < MaxAttempts then RetryFrom(outcomes, attempt)
      else DownloadFailed(attempt, phase, error)
  }

  /** The benchmark's result for a whole run of the loop. */
  function RetryOutcome(outcomes: seq<AttemptOutcome>): DownloadResult
    requires ValidOutcomes(outcomes)
  {
    RetryFrom(outcomes, 0)
  }

  /** The wall time one attempt takes: a failed attempt its own duration,
      a successful one the wait for the headers plus the body read. */
  function AttemptSeconds(outcome: AttemptOutcome): real
  {
    match outcome
    case Failed(_, _, wall) => wall
    case Received(send, _, read) => send + read
  }

  /** The wall clock, in seconds since the benchmark began, once the first
      `n` attempts are over. */
  function Clock(outcomes: seq<AttemptOutcome>, n: nat): real
    requires n <= |outcomes|
  {
    if n == 0 then 0.0 else Clock(outcomes, n - 1) + AttemptSeconds(outcomes[n - 1])
  }

  /** The clock reading at which attempt k starts its timer: after the
      earlier attempts and after its own request has returned headers. */
  function TimerStart(outcomes: seq<AttemptOutcome>, k: nat): real
    requires 1 <= k <= |outcomes| && outcomes[k - 1].Received?
  {
    Clock(outcomes, k - 1) + outcomes[k - 1].sendSeconds
  }

  /** The retry loop as the source runs it: bump the counter, try the send,
      then start the timer and read the body, and `continue` or return on
      each fault. A wall clock advances by the time each step takes; the
      reported duration is the clock at the end of the read minus the clock
      when the timer was started. */
  method MeasureDownload(outcomes: seq<AttemptOutcome>) returns (r: DownloadResult)
    requires ValidOutcomes(outcomes)
    ensures r == RetryOutcome(outcomes)
    ensures r.Downloaded? ==>
              outcomes[r.attempt - 1].Received? &&
              r.seconds == Clock(outcomes, r.attempt) - TimerStart(outcomes, r.attempt)
  {
    var attempts := 0;
    var clock := 0.0;
    while true
      invariant attempts < MaxAttempts
      invariant RetryFrom(outcomes, attempts) == RetryOutcome(outcomes)
      invariant clock == Clock(outcomes, attempts)
      decreases MaxAttempts - attempts
    {
      attempts := attempts + 1;
      var outcome := outcomes[attempts - 1];
      if outcome.Failed? && outcome.phase == Send {
        clock := clock + outcome.wallSeconds;
        var e := outcome.error;
        if e.isTimeout || e.isConnect {
          if attempts >= MaxAttempts {
            return DownloadFailed(attempts, Send, e);
          }
          continue;
        }
        return DownloadFailed(attempts, Send, e);
      }
      match outcome {
        case Received(send, bytes, read) =>
          clock := clock + send;
          // The headers arrived: the timer starts here.
          var start := clock;
          clock := clock + read;
          var seconds := clock - start;
          return Downloaded(attempts, bytes, seconds, SpeedMbps(bytes, seconds));
        case Failed(_, e, wall) =>
          clock := clock + wall;
          if Contains(e.message, "reset") || e.isTimeout {
            if attempts >= MaxAttempts {
              return DownloadFailed(attempts, Body, e);
            }
            continue;
          }
          return DownloadFailed(attempts, Body, e);
      }
    }
  }

  /** Every earlier attempt failed retriably. */
  predicate RetriedBefore(outcomes: seq<AttemptOutcome>, n: nat)
    requires n <= |outcomes|
  {
    forall j :: 0 <= j < n ==> !Ends(outcomes[j], j + 1)
  }

  /** The loop stops at attempt k exactly when every earlier attempt was a
      retried fault and attempt k ends the loop: it never goes past the
      first success, the first non-retriable fault, or the third attempt. */
  lemma StopsAtFirstEnding(outcomes: seq<AttemptOutcome>, k: nat)
    requires ValidOutcomes(outcomes) && 1 <= k <= MaxAttempts
    ensures RetryOutcome(outcomes).attempt == k <==> RetriedBefore(outcomes, k - 1) && Ends(outcomes[k - 1], k)
  {
  }

  /** A fault that is not retried ends the loop on the attempt where it
      happens, however many attempts remain. */
  lemma NonRetriableReturnsAtOnce(outcomes: seq<AttemptOutcome>, k: nat)
    requires ValidOutcomes(outcomes) && 1 <= k <= MaxAttempts
    requires RetriedBefore(outcomes, k - 1)
    requires outcomes[k - 1].Failed? && !Retriable(outcomes[k - 1].phase, outcomes[k - 1].error)
    ensures RetryOutcome(outcomes) == DownloadFailed(k, outcomes[k - 1].phase, outcomes[k - 1].error)
  {
    StopsAtFirstEnding(outcomes, k);
  }

  /** A retriable fault on the last attempt is returned as an error instead
      of starting a fourth attempt. */
  lemma RetriableAtLastAttemptFails(outcomes: seq<AttemptOutcome>)
    requires ValidOutcomes(outcomes) && RetriedBefore(outcomes, MaxAttempts - 1)
    requires outcomes[MaxAttempts - 1].Failed?
    ensures RetryOutcome(outcomes)
            == DownloadFailed(MaxAttempts, outcomes[MaxAttempts - 1].phase, outcomes[MaxAttempts - 1].error)
  {
    StopsAtFirstEnding(outcomes, MaxAttempts);
  }

  /** The timer covers only the body read of the attempt that succeeded:
      the reported duration is the clock at the end of that read minus the
      clock after its headers arrived, so the earlier attempts and the wait
      for headers are excluded, and whenever any of them took time the
      reported duration is shorter than the whole benchmark's wall time. */
  lemma {:induction false} OnlySuccessfulReadIsTimed(outcomes: seq<AttemptOutcome>, k: nat)
    requires ValidOutcomes(outcomes) && 1 <= k <= MaxAttempts
    requires RetriedBefore(outcomes, k - 1) && outcomes[k - 1].Received?
    ensures RetryOutcome(outcomes).Downloaded? && RetryOutcome(outcomes).attempt == k
    ensures RetryOutcome(outcomes).seconds == Clock(outcomes, k) - TimerStart(outcomes, k)
    ensures RetryOutcome(outcomes).seconds
            == Clock(outcomes, k) - Clock(outcomes, k - 1) - outcomes[k - 1].sendSeconds
    ensures TimerStart(outcomes, k) > 0.0 ==> RetryOutcome(outcomes).seconds < Clock(outcomes, k)
  {
    StopsAtFirstEnding(outcomes, k);
  }

  /** The result depends only on the attempt that succeeded: two runs that
      reach the same successful attempt through retried faults report the
      same result, whatever the failed attempts looked like and however long
      they and the successful attempt's request took. */
  lemma SameSuccessSameResult(o1: seq<AttemptOutcome>, o2: seq<AttemptOutcome>, k: nat)
    requires ValidOutcomes(o1) && ValidOutcomes(o2) && 1 <= k <= MaxAttempts
    requires RetriedBefore(o1, k - 1) && RetriedBefore(o2, k - 1)
    requires o1[k - 1].Received? && o2[k - 1].Received?
    requires o1[k - 1].bytes == o2[k - 1].bytes && o1[k - 1].readSeconds == o2[k - 1].readSeconds
    ensures RetryOutcome(o1) == RetryOutcome(o2)
  {
    StopsAtFirstEnding(o1, k);
    StopsAtFirstEnding(o2, k);
  }

  /** A connect failure on attempts 1 and 2 followed by a 100 MiB body read
      in 8 seconds succeeds on attempt 3 at 100 Mbps, however long the two
      failed attempts and the third attempt's request took: the clock has
      then run for all of that time plus 8 seconds, and the timer for 8. */
  lemma ConnectTwiceThenSucceed(e: TransportError, w1: real, w2: real, s: real)
    requires e.isConnect
    ensures var o := [Failed(Send, e, w1), Failed(Send, e, w2), Received(s, 104857600, 8.0)];
            RetryOutcome(o) == Downloaded(3, 104857600, 8.0, 100.0) &&
            Clock(o, 3) == w1 + w2 + s + 8.0 &&
            Clock(o, 3) - TimerStart(o, 3) == 8.0
  {
    var o := [Failed(Send, e, w1), Failed(Send, e, w2), Received(s, 104857600, 8.0)];
    assert !Ends(o[0], 1) && !Ends(o[1], 2);
    StopsAtFirstEnding(o, 3);
    HundredMiBInEightSeconds();
    assert Clock(o, 1) == w1;
    assert Clock(o, 2) == w1 + w2;
  }

  /** The phases classify differently: a "connection reset" error that is
      neither a timeout nor a connect error is retried when the body read
      reports it and fatal when the send reports it. */
  lemma ResetRetriedOnlyInBody()
    ensures Retriable(Body, TransportError("connection reset by peer", false, false))
    ensures !Retriable(Send, TransportError("connection reset by peer", false, false))
  {
    var m := "connection reset by peer";
    assert OccursAt(m, "reset", 11);
    ContainsIff(m, "reset");
  }
}
