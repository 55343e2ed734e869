/** RTP timestamps of the stream, and the test that asks for a sender report. */
module RtpClock {
  import opened Common

  const WRAP := 0x1_0000_0000

  /** `mmal_frame->dts` is assigned to a `uint64_t`. */
  function SampleTime(dts: int): nat {
    dts % 0x1_0000_0000_0000_0000
  }

  /** A negative time, such as that of an unknown one, becomes a huge positive one. */
  lemma SampleTimeWraps(dts: int)
    requires -0x8000_0000_0000_0000 <= dts < 0x8000_0000_0000_0000
    ensures SampleTime(dts) == if dts >= 0 then dts else 0x1_0000_0000_0000_0000 + dts
    ensures dts < 0 ==> SampleTime(dts) >= 0x8000_0000_0000_0000
  {
  }

  function ElapsedSeconds(sampleTime: nat): real {
    sampleTime as real / 1000000.0
  }

  /** Ticks before they are cut to 32 bits. */
  function Ticks(seconds: real, clockRate: uint32): int {
    (seconds * clockRate as real).Floor
  }

  function SecondsToTimestamp(seconds: real, clockRate: uint32): uint32 {
    Ticks(seconds, clockRate) % WRAP
  }

  function TimestampToSeconds(timestamp: uint32, clockRate: uint32): real
    requires clockRate > 0
  {
    timestamp as real / clockRate as real
  }

  function TicksOf(dts: int, clockRate: uint32): nat {
    TicksAreInteger(SampleTime(dts), clockRate);
    Ticks(ElapsedSeconds(SampleTime(dts)), clockRate)
  }

  /** Exact seconds give exact ticks. */
  lemma TicksAreInteger(sampleTime: nat, clockRate: uint32)
    ensures Ticks(ElapsedSeconds(sampleTime), clockRate) == sampleTime * clockRate / 1000000
  {
    var n := sampleTime * clockRate;
    var x := ElapsedSeconds(sampleTime) * clockRate as real;
    assert x == (sampleTime as real * clockRate as real) / 1000000.0;
    assert sampleTime as real * clockRate as real == n as real;
    var q := n / 1000000;
    assert q as real <= n as real / 1000000.0 < q as real + 1.0;
  }

  /** A timestamp is the stream's true tick count cut to 32 bits, wherever it starts. */
  function Stamp(ticks: int, start: uint32): uint32 {
    (start + ticks) % WRAP
  }

  /** Unsigned subtraction of two timestamps is the true distance modulo 2^32. */
  lemma Distance(ticks: int, last: int, start: uint32)
    ensures (Stamp(ticks, start) - Stamp(last, start)) % WRAP == (ticks - last) % WRAP
  {
  }

  lemma StampWraps(ticks: int, start: uint32)
    ensures (start + ticks % WRAP) % WRAP == Stamp(ticks, start)
  {
  }

  /** The reporter's part of the stream: the clock, the current timestamp and that of the last
      report. */
  class Sender {
    const clockRate: uint32
    const startTimestamp: uint32
    var timestamp: uint32
    var previousReportedTimestamp: uint32

    constructor (clockRate: uint32, startTimestamp: uint32, timestamp: uint32, previousReported: uint32)
      ensures this.clockRate == clockRate && this.startTimestamp == startTimestamp
      ensures this.timestamp == timestamp && this.previousReportedTimestamp == previousReported
    {
      this.clockRate, this.startTimestamp := clockRate, startTimestamp;
      this.timestamp, this.previousReportedTimestamp := timestamp, previousReported;
    }

    /** Stamps one sample and decides whether a report is due.  For the true distance `d` from the
        last report, the answer is whether `d` modulo 2^32 exceeds one second of ticks. */
    method OnSample(dts: int, ghost lastDts: int) returns (needsReport: bool)
      requires clockRate > 0 && -0x8000_0000_0000_0000 <= dts < 0x8000_0000_0000_0000
      requires previousReportedTimestamp == Stamp(TicksOf(lastDts, clockRate), startTimestamp)
      modifies this`timestamp
      ensures timestamp == Stamp(TicksOf(dts, clockRate), startTimestamp)
      ensures needsReport <==> (TicksOf(dts, clockRate) - TicksOf(lastDts, clockRate)) % WRAP > clockRate
    {
      hide Ticks, Stamp, TimestampToSeconds;
      StampWraps(TicksOf(dts, clockRate), startTimestamp);
      var elapsedTimestamp := SecondsToTimestamp(ElapsedSeconds(SampleTime(dts)), clockRate);
      timestamp := (startTimestamp + elapsedTimestamp) % WRAP;
      var reportElapsed := (timestamp - previousReportedTimestamp) % WRAP;
      needsReport := TimestampToSeconds(reportElapsed, clockRate) > 1.0;
      Distance(TicksOf(dts, clockRate), TicksOf(lastDts, clockRate), startTimestamp);
      MoreThanASecond(reportElapsed, clockRate);
    }

    /** The report goes out before the next packet and carries the current timestamp. */
    method Reported()
      modifies this`previousReportedTimestamp
      ensures previousReportedTimestamp == timestamp
    {
      previousReportedTimestamp := timestamp;
    }
  }

  lemma MoreThanASecond(ticks: uint32, clockRate: uint32)
    requires clockRate > 0
    ensures TimestampToSeconds(ticks, clockRate) > 1.0 <==> ticks > clockRate
  {
    RatioAboveOne(ticks as real, clockRate as real);
  }

  lemma RatioAboveOne(t: real, r: real)
    requires r > 0.0
    ensures t / r > 1.0 <==> t > r
  {
    var x := t / r;
    assert x * r == t;
    if x > 1.0 {
      assert (x - 1.0) * r > 0.0;
    } else {
      assert (1.0 - x) * r >= 0.0;
    }
  }

  /** The distances for which the wrapped test has the right outcome: those below 2^32, and beyond it
      those whose remainder still exceeds a second; for a step back, a remainder within a second. */
  predicate TestIsRight(distance: int, clockRate: uint32) {
    if distance < 0 then distance % WRAP <= clockRate else distance < WRAP || distance % WRAP > clockRate
  }

  lemma WrappedTestIsExact(distance: int, clockRate: uint32)
    ensures (distance % WRAP > clockRate <==> distance > clockRate) <==> TestIsRight(distance, clockRate)
  {
    if distance >= 0 {
      assert distance % WRAP <= distance;
    }
  }

  /** A pause of 13 hours at the clock rate of H.264: more than a second, and no report. */
  lemma PauseOfOneWrap()
    ensures TicksOf(47721858845, 90000) == WRAP && TicksOf(0, 90000) == 0
    ensures !TestIsRight(TicksOf(47721858845, 90000) - TicksOf(0, 90000), 90000)
    ensures Requested([TicksOf(47721858845, 90000)], TicksOf(0, 90000), 90000) == [false]
    ensures Due([TicksOf(47721858845, 90000)], TicksOf(0, 90000), 90000) == [true]
  {
    TicksAreInteger(47721858845, 90000);
    TicksAreInteger(0, 90000);
    assert Due([], WRAP, 90000) == [] && Requested([], 0, 90000) == [];
  }

  // ---------- a whole stream ----------

  /** Which samples ask for a report, on unbounded tick counts: those more than a second after the
      last report. */
  function Due(ticks: seq<int>, last: int, clockRate: uint32): seq<bool> {
    if ticks == [] then []
    else
      var due := ticks[0] - last > clockRate;
      [due] + Due(ticks[1..], if due then ticks[0] else last, clockRate)
  }

  /** Which samples the 32-bit clock asks a report for. */
  function Requested(ticks: seq<int>, last: int, clockRate: uint32): seq<bool> {
    if ticks == [] then []
    else
      var due := (ticks[0] - last) % WRAP > clockRate;
      [due] + Requested(ticks[1..], if due then ticks[0] else last, clockRate)
  }

  /** The test is right at every sample of a stream whose reports go out when they are due. */
  predicate AlwaysRight(ticks: seq<int>, last: int, clockRate: uint32) {
    ticks == []
    || (TestIsRight(ticks[0] - last, clockRate)
        && AlwaysRight(ticks[1..], if ticks[0] - last > clockRate then ticks[0] else last, clockRate))
  }

  /** Main theorem: over a stream of any length, with any number of wraps and steps back, the 32-bit
      clock asks for reports where an unbounded one would if and only if its test is right at every
      sample. */
  lemma {:induction false} RequestsAreExact(ticks: seq<int>, last: int, clockRate: uint32)
    ensures Requested(ticks, last, clockRate) == Due(ticks, last, clockRate) <==> AlwaysRight(ticks, last, clockRate)
  {
    hide TestIsRight;
    if ticks == [] {
    } else {
      var distance := ticks[0] - last;
      WrappedTestIsExact(distance, clockRate);
      RequestsAreExact(ticks[1..], if distance > clockRate then ticks[0] else last, clockRate);
      var requested, due := Requested(ticks, last, clockRate), Due(ticks, last, clockRate);
      assert requested[0] == (distance % WRAP > clockRate) && due[0] == (distance > clockRate);
      assert requested[0] == due[0] ==> (requested == due <==> requested[1..] == due[1..]) by {
        assert requested == [requested[0]] + requested[1..] && due == [due[0]] + due[1..];
      }
    }
  }

  function AllTicks(dts: seq<int>, clockRate: uint32): (r: seq<int>)
    ensures |r| == |dts| && forall i :: 0 <= i < |dts| ==> r[i] == TicksOf(dts[i], clockRate)
  {
    seq(|dts|, i requires 0 <= i < |dts| => TicksOf(dts[i], clockRate))
  }

  /** Ticks never go back, and no pause adds up to a whole wrap. */
  predicate Steady(ticks: seq<int>, previous: int, clockRate: uint32) {
    ticks == []
    || (0 <= ticks[0] - previous < WRAP - clockRate && Steady(ticks[1..], ticks[0], clockRate))
  }

  /** In particular the test is always right over a steady stream, however long. */
  lemma {:induction false} SteadyIsRight(ticks: seq<int>, last: int, previous: int, clockRate: uint32)
    requires Steady(ticks, previous, clockRate) && 0 <= previous - last <= clockRate
    ensures AlwaysRight(ticks, last, clockRate)
  {
    if ticks == [] {
    } else {
      SteadyIsRight(ticks[1..], if ticks[0] - last > clockRate then ticks[0] else last, ticks[0], clockRate);
    }
  }

  lemma OneRequest(requests: seq<bool>, ticks: seq<int>, i: nat, last: int, clockRate: uint32)
    requires i < |ticks|
    ensures var due := (ticks[i] - last) % WRAP > clockRate;
            requests + Requested(ticks[i..], last, clockRate)
            == (requests + [due]) + Requested(ticks[i + 1..], if due then ticks[i] else last, clockRate)
  {
    assert ticks[i..][1..] == ticks[i + 1..];
  }

  lemma AllRequested(requests: seq<bool>, ticks: seq<int>, last: int, clockRate: uint32)
    ensures requests + Requested(ticks[|ticks|..], last, clockRate) == requests
  {
  }

  /** Any stream of samples with `int64_t` times, each report going out before the next sample. */
  method Stream(sender: Sender, dts: seq<int>, ghost first: int) returns (requests: seq<bool>)
    requires sender.clockRate > 0
    requires forall i :: 0 <= i < |dts| ==> -0x8000_0000_0000_0000 <= dts[i] < 0x8000_0000_0000_0000
    requires sender.previousReportedTimestamp == Stamp(TicksOf(first, sender.clockRate), sender.startTimestamp)
    modifies sender
    ensures var ticks, last := AllTicks(dts, sender.clockRate), TicksOf(first, sender.clockRate);
            && requests == Requested(ticks, last, sender.clockRate)
            && (requests == Due(ticks, last, sender.clockRate) <==> AlwaysRight(ticks, last, sender.clockRate))
  {
    hide TicksOf, Stamp, AlwaysRight, Due, Requested;
    requests := [];
    ghost var rate, ticks, last := sender.clockRate, AllTicks(dts, sender.clockRate), first;
    for i := 0 to |dts|
      invariant sender.previousReportedTimestamp == Stamp(TicksOf(last, rate), sender.startTimestamp)
      invariant requests + Requested(ticks[i..], TicksOf(last, rate), rate)
             == Requested(ticks, TicksOf(first, rate), rate)
    {
      var needsReport := sender.OnSample(dts[i], last);
      OneRequest(requests, ticks, i, TicksOf(last, rate), rate);
      requests := requests + [needsReport];
      if needsReport {
        sender.Reported();
        last := dts[i];
      }
    }
    AllRequested(requests, ticks, TicksOf(last, rate), rate);
    RequestsAreExact(ticks, TicksOf(first, rate), rate);
  }
}
