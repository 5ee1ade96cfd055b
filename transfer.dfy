/** The vocabulary the benchmarks share with the HTTP client: the errors it
    reports and the formula that turns a byte count and a duration into
    megabits per second. Durations are seconds as `real`; the floating-point
    rounding of the Rust code is not modelled. */
module Transfer {

  /** One mebibyte; the tool reports "MB" in these units. */
  const BytesPerMiB: nat := 1048576

  /** A transport error as the HTTP client reports it: its rendered message
      and the client's two classification flags. */
  datatype TransportError = TransportError(message: string, isTimeout: bool, isConnect: bool)

  /** Megabits per second for `bytes` moved in `seconds`:
      bytes / 1 MiB, times 8, divided by the duration. The source divides
      without guarding against a zero duration, so the model requires a
      positive one. */
  function SpeedMbps(bytes: nat, seconds: real): (mbps: real)
    requires seconds > 0.0
    ensures mbps >= 0.0
    ensures mbps * seconds == Megabits(bytes)
  {
    Megabits(bytes) / seconds
  }

  /** The sum of a list of naturals. */
  function Sum(s: seq<nat>): nat
  {
    if s == [] then 0 else s[0] + Sum(s[1..])
  }

  /** The payload size in megabits (mebibytes times 8). */
  function Megabits(bytes: nat): real
  {
    bytes as real / BytesPerMiB as real * 8.0
  }

  /** Doubling (or any whole-number scaling of) both the bytes and the
      duration leaves the reported speed unchanged. */
  lemma ScaleInvariant(bytes: nat, seconds: real, k: nat)
    requires seconds > 0.0 && k >= 1
    ensures SpeedMbps(k * bytes, k as real * seconds) == SpeedMbps(bytes, seconds)
  {
    var s := SpeedMbps(bytes, seconds);
    assert Megabits(k * bytes) == k as real * Megabits(bytes);
    assert s * (k as real * seconds) == k as real * Megabits(bytes);
  }

  /** More bytes in the same time, or the same bytes in more time, move the
      reported speed in the expected direction. */
  lemma SpeedMonotone(b1: nat, b2: nat, s1: real, s2: real)
    requires 0.0 < s2 <= s1 && b1 <= b2
    ensures SpeedMbps(b1, s1) <= SpeedMbps(b2, s2)
  {
    var m1, m2 := Megabits(b1), Megabits(b2);
    assert m1 <= m2;
    assert m1 / s1 <= m1 / s2;
  }

  /** 100 MiB downloaded in 8 seconds is 100 Mbps. */
  lemma HundredMiBInEightSeconds()
    ensures SpeedMbps(104857600, 8.0) == 100.0
  {
  }

  /** 10 MiB uploaded in 4 seconds is 20 Mbps. */
  lemma TenMiBInFourSeconds()
    ensures SpeedMbps(10485760, 4.0) == 20.0
  {
  }
}
