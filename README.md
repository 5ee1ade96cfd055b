# SpeedRust measurement engine, modelled in Dafny

SpeedRust is a command-line speed test. For a number of iterations it
measures ping with a HEAD request and download throughput by streaming a large
file, retrying transient faults up to three attempts. It measures upload
throughput by POSTing a 10 MiB payload while a background task simulates
progress. It then averages the three series and prints a verdict banded on
the average download speed.

The model keeps the control logic and abstracts the network away: what the
HTTP client returns on each request is an input.

- `Transfer` (`transfer.dfy`): transport errors and the throughput formula
  `bytes / 1 MiB * 8 / seconds`.
- `Download` (`download.dfy`): the retry loop of `measure_download_with_progress`.
  It is a method with a `while` loop, proved equal to a recursive
  specification. Lemmas cover the attempt bound, the stop rule, how the send
  and body phases classify errors, and which time is measured.
- `Upload` (`upload.dfy`): the simulated progress loop of
  `measure_upload_with_progress`, a method with a `while` loop. Lemmas cover the
  increments it produces: their sum, shape, count and prefix bounds, and the 51
  passes for the fixed payload. The module also holds the upload speed, both as
  written and corrected (see Findings).
- `Trials` (`trials.dfy`): the trial loop of `main`. It grows three lists in a
  `for` loop and aborts on the first error. After the loop come the averages
  (NaN for zero iterations, as in floating point) and the verdict bands.

src/main.rs:140 divides by the measured body-read time without a guard, so
the model requires that time to be positive. The upload timer is read only
after the progress task has been joined, so the division at src/main.rs:196
is by at least 7.65 s; the model keeps that timing (see Findings).

## Model

| member | source | states |
|---|---|---|
| `Transfer.SpeedMbps` | src/main.rs:138-140 | the speed is non-negative and speed times duration is the payload in megabits (bytes / 1 MiB * 8) |
| `Transfer.ScaleInvariant` | src/main.rs:139-140 | scaling bytes and duration by the same whole factor leaves the speed unchanged |
| `Transfer.SpeedMonotone` | src/main.rs:139-140 | more bytes, or the same bytes in less time, never gives a lower speed |
| `Transfer.HundredMiBInEightSeconds` | src/main.rs:138-140 | 104857600 bytes in 8 s is exactly 100 Mbps |
| `Transfer.TenMiBInFourSeconds` | src/main.rs:195-196 | the formula alone gives exactly 20 Mbps for 10485760 bytes over a 4 s reading (the upload timer as written never reads 4 s; see `Upload.FourSecondPostAsWritten`) |
| `Download.Retriable` | src/main.rs:104-152 | a timeout is always retried; in the send phase exactly timeouts and connect errors are retried, in the body phase exactly timeouts and errors whose message contains "reset" |
| `Download.ContainsIff` | src/main.rs:143 | the recursive substring test used for "reset" holds exactly when the pattern occurs at some offset |
| `Download.RetryFrom` | src/main.rs:98-154 | after `made` retried faults, the loop stops at an attempt between made+1 and 3. Every attempt before it was a retried fault, and that attempt ends the loop. The result is its body with its own read time and speed, or its phase and error |
| `Download.MeasureDownload` | src/main.rs:95-155 | the imperative loop (counter bumped at the top, send phase, then body phase, `continue` on retriable faults with budget left) returns exactly the specified retry result. It keeps a wall clock advanced by every attempt, and a successful result's duration is the clock after the body read minus the clock when the timer started, once the headers had arrived |
| `Download.StopsAtFirstEnding` | src/main.rs:98-112 | the loop stops at attempt k if and only if attempts 1..k-1 were retried faults and attempt k succeeds, hits a non-retriable fault, or is the third |
| `Download.NonRetriableReturnsAtOnce` | src/main.rs:114 | a send error that is neither timeout nor connect, or a body error that is neither "reset" nor timeout, is returned on the attempt where it happens |
| `Download.RetriableAtLastAttemptFails` | src/main.rs:143-148 | a retriable fault on attempt 3 is returned as the error; there is no fourth attempt |
| `Download.OnlySuccessfulReadIsTimed` | src/main.rs:132-141 | when attempt k succeeds after retried faults, the reported duration is the clock at the end of its body read minus the clock when its headers arrived. Earlier attempts and the wait for headers are excluded, so whenever they took time the duration is shorter than the benchmark's wall time |
| `Download.SameSuccessSameResult` | src/main.rs:132-141 | two runs that succeed on the same attempt with the same bytes and body-read time report the same result, whatever their failed attempts and request times were |
| `Download.ConnectTwiceThenSucceed` | src/main.rs:101-141 | connect failures on attempts 1 and 2 then 100 MiB in 8 s give success on attempt 3 at 100 Mbps, for any duration of the failed attempts. The clock has run for all of those durations plus 8 s, the timer for 8 s |
| `Download.ResetRetriedOnlyInBody` | src/main.rs:106 | an error whose message says "reset" but is neither timeout nor connect is retried in the body phase and fatal in the send phase |
| `Upload.Step` | src/main.rs:178 | the simulation step `max(data_size / 50, 1)` is at least one byte |
| `Upload.SimulateProgress` | src/main.rs:177-184 | the loop ends with the counter exactly at `data_size`; its increments are the specified sequence and sum to `data_size` |
| `Upload.IncrementsSum` | src/main.rs:179-183 | the increments from a counter value add up to exactly what remains, so the counter never overshoots |
| `Upload.IncrementsShape` | src/main.rs:181 | every increment is between 1 and the step, and every increment but the last is a full step |
| `Upload.IncrementsCount` | src/main.rs:179-184 | the loop makes exactly ceil(remaining / step) passes |
| `Upload.PrefixSumsBounded` | src/main.rs:182-183 | the bar position after each increment never decreases and never exceeds the final total |
| `Upload.FixedPayloadPasses` | src/main.rs:160 | for 10 MiB the step is 209715, there are 51 passes, 50 full steps and a last increment of 10 bytes |
| `Upload.ProgressSeconds` | src/main.rs:180 | one 150 ms sleep per pass makes the simulation last 7.65 s |
| `Upload.UploadSpeed` | src/main.rs:195-196 | corrected upload speed: speed times the POST's duration is the 80 megabits of the payload |
| `Upload.UploadSecondsAsWritten` | src/main.rs:172-192 | the timer, started before the progress task is spawned and read after it is joined, reads at least the POST's duration and at least the 7.65 s of the simulation, and is one of the two |
| `Upload.UploadSpeedAsWritten` | src/main.rs:191-196 | the speed as written: speed times the timer reading is the 80 megabits of the payload, and it never exceeds the speed of the POST alone |
| `Upload.AsWrittenSpeedCapped` | src/main.rs:191-196 | with the timer read after awaiting the simulation, no upload reports more than 80 / 7.65 (under 10.5) Mbps |
| `Upload.AsWrittenUnderreports` | src/main.rs:191-192 | a 1-second POST is 80 Mbps when only the POST is timed, but under 10.5 Mbps as written |
| `Upload.FourSecondPostAsWritten` | src/main.rs:191-196 | a 4-second POST would be 20 Mbps timed alone; as written the timer reads 7.65 s and the speed is 80 / 7.65 |
| `Upload.MeasureUpload` | src/main.rs:157-199 | a failed POST is returned with its error and no retry. Otherwise the simulation completes at exactly the payload size, and the speed is the payload over the timer reading taken after the simulation is joined |
| `Trials.Trial` | src/main.rs:51-61 | a trial fails at a step exactly when the earlier steps succeeded and that step failed, and then carries that step's error; it is measured exactly when ping, download and upload all succeed, and then carries the ping time, the download result's speed and the as-written upload speed, which is under 10.5 Mbps |
| `Trials.AverageOf` | src/main.rs:66-68 | dividing a sum by the iteration count gives a number exactly when there is at least one iteration, and that number times the count is the sum |
| `Trials.Summarize` | src/main.rs:66-84 | with at least one iteration each average times the count is its list's sum; with none all three are NaN; the verdict is banded on the download average |
| `Trials.VerdictFor` | src/main.rs:78-84 | above 25 is great, (10, 25] is solid, at most 10 or NaN is check-signal, each in both directions |
| `Trials.RunTrials` | src/main.rs:44-68 | the run completes iff every trial succeeds. It then has exactly `iterations` pings, download speeds and upload speeds, entry i being trial i's, averaged in the summary. Otherwise it reports the first failing trial and step, and all earlier trials succeeded |
| `Trials.VerdictMonotone` | src/main.rs:78-84 | a higher average download never gets a lower verdict |
| `Trials.MeanWithinBounds` | src/main.rs:66-68 | the average of a non-empty series lies between any lower and upper bound of its entries |
| `Trials.MeanAbove` | src/main.rs:67 | the average of a non-empty series whose entries all exceed a bound exceeds it too |
| `Trials.MeanAtMost` | src/main.rs:67 | the average of a non-empty series whose entries are all at most a bound is at most that bound |
| `Trials.UniformTrialsVerdict` | src/main.rs:67-84 | if every trial downloads above 25 Mbps the verdict is great; if every trial is at most 10 Mbps it is check-signal |
| `Trials.ThreeTrialScenario` | src/main.rs:67-78 | downloads of 50, 60 and 70 Mbps over 3 trials average 60 and give the great verdict |
| `Trials.NoTrialsSummary` | src/main.rs:66-84 | with zero iterations every average is NaN and the verdict is check-signal |

## Findings

| source | as written | input that shows it | evidently intended | confidence | as-written member | corrected member |
|---|---|---|---|---|---|---|
| src/main.rs:191-192 | the upload timer is read after `progress_handle.await`. The simulation sleeps 150 ms before each of its 51 passes, so the measured time is at least 7.65 s | a POST that completes in 1 s (an 80 Mbps link) is reported as about 10.46 Mbps | time only the POST and the response drain, giving 80 Mbps for that input | high (not executed) | `Upload.AsWrittenSpeedCapped` | `Upload.UploadSpeed` |

The benchmark and the trial model use the speed as written
(`Upload.UploadSpeedAsWritten`); `Upload.UploadSpeed` is the corrected
definition.

## Left out

- HTTP requests (HEAD, GET, POST, body reads, response draining) are network I/O; their results are inputs (`PingOutcome`, `AttemptOutcome`, `UploadOutcome`).
- `measure_ping` (src/main.rs:89-93) is only an input: its wall-clock measurement cannot be modelled.
- Wall-clock timing: durations are inputs in seconds. A successful body read must take a positive time, because src/main.rs:140 divides by it without a guard; a POST's duration only needs to be non-negative.
- Floating-point arithmetic: speeds and averages are exact reals, with no rounding. NaN appears only where the code divides by zero iterations.
- Integer widths: `u128` ping sums, the `u64` counter and the `u32` iteration count are unbounded naturals. None of them can overflow for the sizes involved.
- Concurrency: the spawned progress task, its sleeps and the join are modelled as running the simulation to completion after a successful POST. In the code, a failed POST returns without awaiting the task; the model then does not run it.
- Progress-bar rendering, styles, ticks, `finish_with_message`/`abandon_with_message`, the hidden bar for a missing content length, and all console output (including the "retrying k/3" notices) are presentation.
- Command-line parsing, the default server URLs, the client's 300 s and 30 s timeouts, and the date line are configuration and presentation.
- Random payload generation: only the payload's size matters.
- `Download.ValidOutcomes`: requires an outcome for each of the 3 attempts the loop may make, since every attempt the real loop makes receives some outcome from the network.
- `Upload.UploadSecondsAsWritten`: takes the simulation to last exactly 7.65 s and the timer to read exactly the later of the POST's end and the simulation's end. `tokio::time::sleep` waits at least 150 ms and the scheduler can add delay, so the real reading can only be longer and the real speed only lower; the cap of `Upload.AsWrittenSpeedCapped` still holds.
