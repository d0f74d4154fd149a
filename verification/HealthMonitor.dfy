/** The health monitor's rate limit, and whether each of its reports is news
    (services/healthmon/healthmon_service.c).

    Register values and clock readings are inputs. Each monitor reads the clock twice in a round: once
    to see whether its throttle period is over, once to stamp a report. */
module HealthMonitor {
  import opened Words

  const U32 := 0x1_0000_0000
  const U64 := 0x1_0000_0000_0000_0000

  datatype CheckType = AboveThreshold | BelowThreshold | AboveOrBelow | EqualTo | NotEqualTo | ChangedSinceLast

  datatype Monitor = Monitor(checkType: CheckType, maxValue: nat, minValue: nat, shift: nat, mask: nat,
      throttleScale: nat)

  datatype Status = Status(throttleStart: nat, lastValue: nat, count: nat, initialized: bool)

  /** What one monitor meets in one round: its register, and the two clock readings. */
  datatype Round = Round(register: nat, checkTime: nat, stampTime: nat)

  const INITIAL := Status(0, 0, 0, false)

  /** `throttleScale * ONE_SEC`, in ticks. */
  function Period(m: Monitor, oneSec: nat): nat { m.throttleScale * oneSec }

  /** `HSS_Timer_IsElapsed`, with its 64-bit sum. */
  predicate Elapsed(start: nat, duration: nat, now: nat) {
    now > (start + duration) % U64
  }

  function Sample(m: Monitor, register: nat): nat {
    var value := if m.mask > 0xFFFF_FFFF then register else register % U32;
    var shifted := if m.shift != 0 then Shr(value, m.shift) else value;
    if m.mask != 0 then And(shifted, m.mask) else shifted
  }

  lemma {:induction false} ShrDigit(v: nat, n: nat, i: nat)
    ensures Digit(Shr(v, n), i) <==> Digit(v, i + n)
    decreases n
  {
    if n > 0 {
      ShrDigit(v / 2, n - 1, i);
      DigitNext(v, i + n - 1);
    }
  }

  lemma DigitNext(v: nat, i: nat)
    ensures Digit(v, i + 1) <==> Digit(v / 2, i)
  {
  }

  lemma {:induction false} AndDigit(a: nat, b: nat, i: nat)
    ensures Digit(And(a, b), i) <==> Digit(a, i) && Digit(b, i)
    decreases i
  {
    if a == 0 || b == 0 {
      ZeroDigits(i);
    } else if i > 0 {
      AndDigit(a / 2, b / 2, i - 1);
      DigitNext(a, i - 1);
      DigitNext(b, i - 1);
      DigitNext(And(a, b), i - 1);
      assert And(a, b) / 2 == And(a / 2, b / 2);
    }
  }

  /** The low `n` bits of `v`. */
  function Low(v: nat, n: nat): nat
    decreases n, v
  {
    if n == 0 then 0 else 2 * Low(v / 2, n - 1) + v % 2
  }

  lemma {:induction false} LowDigit(v: nat, n: nat, i: nat)
    ensures Digit(Low(v, n), i) <==> Digit(v, i) && i < n
    decreases n
  {
    if n == 0 {
      ZeroDigits(i);
    } else if i > 0 {
      LowDigit(v / 2, n - 1, i - 1);
      DigitNext(v, i - 1);
      DigitNext(Low(v, n), i - 1);
    }
  }

  lemma {:induction false} LowAndRest(v: nat, n: nat)
    ensures v == Shr(v, n) * Pow2(n) + Low(v, n) && Low(v, n) < Pow2(n)
    decreases n
  {
    if n > 0 {
      LowAndRest(v / 2, n - 1);
      Regroup(Shr(v, n), Pow2(n - 1));
    }
  }

  lemma Regroup(q: nat, p: nat)
    ensures q * (2 * p) == 2 * (q * p)
  {
  }

  lemma WordSizes()
    ensures Pow2(32) == U32 && Pow2(64) == U64
  {
    Pow2Sum(4, 4);
    assert Pow2(8) == 256;
    hide Pow2;
    Pow2Sum(8, 8); Pow2Sum(16, 16); Pow2Sum(32, 32);
  }

  lemma LowWord(v: nat)
    ensures v % U32 == Low(v, 32)
  {
    hide Pow2, Shr, Low;
    WordSizes();
    LowAndRest(v, 32);
    var q := Shr(v, 32);
    assert v == q * U32 + Low(v, 32);
  }

  lemma NoShift(value: nat)
    ensures Shr(value, 0) == value
  {
  }

  /** The sample, bit by bit: bit `i` is bit `i + shift` of the register, if the mask has bit `i` or there is no
      mask, and if the register is read that far: 32 bits of it unless the mask is wider. */
  lemma SampleBits(m: Monitor, register: nat, i: nat)
    ensures Digit(Sample(m, register), i) <==>
      && Digit(register, i + m.shift)
      && (m.mask <= 0xFFFF_FFFF ==> i + m.shift < 32)
      && (m.mask != 0 ==> Digit(m.mask, i))
  {
    var value := if m.mask > 0xFFFF_FFFF then register else register % U32;
    LowWord(register);
    LowDigit(register, 32, i + m.shift);
    ShrDigit(value, m.shift, i);
    AndDigit(Shr(value, m.shift), m.mask, i);
    NoShift(value);
    hide Digit, Shr, And, Low;
  }

  predicate Triggered(m: Monitor, s: Status, value: nat) {
    match m.checkType
    case AboveThreshold => value > m.maxValue
    case BelowThreshold => value < m.minValue
    case AboveOrBelow => value > m.maxValue || value < m.minValue
    case EqualTo => value == m.maxValue
    case NotEqualTo => value != m.maxValue
    case ChangedSinceLast => s.initialized && value != s.lastValue
  }

  /** The monitor reports in this round. */
  predicate Reports(m: Monitor, oneSec: nat, s: Status, r: Round) {
    var value := Sample(m, r.register);
    Elapsed(s.throttleStart, Period(m, oneSec), r.checkTime) && Triggered(m, s, value) && value != s.lastValue
  }

  function Next(m: Monitor, oneSec: nat, s: Status, r: Round): Status {
    if !Elapsed(s.throttleStart, Period(m, oneSec), r.checkTime) then s
    else
      var t := if m.checkType == ChangedSinceLast then s.(initialized := true) else s;
      if Reports(m, oneSec, s, r)
      then t.(count := s.count + 1, throttleStart := r.stampTime, lastValue := Sample(m, r.register) % U32)
      else t
  }

  class Service {
    const oneSec: nat
    const monitors: seq<Monitor>
    const status: array<Status>

    constructor (monitors: seq<Monitor>, oneSec: nat)
      ensures this.monitors == monitors && this.oneSec == oneSec && fresh(status)
      ensures status.Length == |monitors| && forall i :: 0 <= i < |monitors| ==> status[i] == INITIAL
    {
      this.monitors, this.oneSec := monitors, oneSec;
      status := new Status[|monitors|](_ => INITIAL);
    }

    /** `healthmon_monitoring_handler`. */
    method MonitoringHandler(rounds: seq<Round>)
      requires status.Length == |monitors| == |rounds|
      modifies status
      ensures forall i :: 0 <= i < |monitors| ==> status[i] == Next(monitors[i], oneSec, old(status[i]), rounds[i])
    {
      var i := 0;
      while i < |monitors|
        invariant 0 <= i <= |monitors|
        invariant forall k :: 0 <= k < i ==> status[k] == Next(monitors[k], oneSec, old(status[k]), rounds[k])
        invariant forall k :: i <= k < |monitors| ==> status[k] == old(status[k])
      {
        VisitMonitor(i, rounds[i]);
        i := i + 1;
      }
    }

    /** The body of the handler's loop. */
    method VisitMonitor(i: nat, r: Round)
      requires i < status.Length == |monitors|
      modifies status
      ensures status[i] == Next(monitors[i], oneSec, old(status[i]), r)
      ensures forall k :: 0 <= k < |monitors| && k != i ==> status[k] == old(status[k])
    {
      var m := monitors[i];
      if Elapsed(status[i].throttleStart, m.throttleScale * oneSec, r.checkTime) {
        var value := if m.mask > 0xFFFF_FFFF then r.register else r.register % U32;
        if m.shift != 0 { value := Shr(value, m.shift); }
        if m.mask != 0 { value := And(value, m.mask); }
        var triggered := false;
        match m.checkType {
          case AboveThreshold => if value > m.maxValue { triggered := true; }
          case BelowThreshold => if value < m.minValue { triggered := true; }
          case AboveOrBelow =>
            if value > m.maxValue { triggered := true; }
            else if value < m.minValue { triggered := true; }
          case EqualTo => if value == m.maxValue { triggered := true; }
          case NotEqualTo => if value != m.maxValue { triggered := true; }
          case ChangedSinceLast =>
            if status[i].initialized {
              if value != status[i].lastValue { triggered := true; }
            } else {
              status[i] := status[i].(initialized := true);
            }
        }
        if triggered && value != status[i].lastValue {
          status[i] := status[i].(count := status[i].count + 1);
          status[i] := status[i].(throttleStart := r.stampTime);
          status[i] := status[i].(lastValue := value % U32);
        }
      }
    }
  }

  // ---------------------------------------------------------------- whole runs of one monitor

  function Run(m: Monitor, oneSec: nat, s: Status, rounds: seq<Round>): Status
    decreases rounds
  {
    if rounds == [] then s else Run(m, oneSec, Next(m, oneSec, s, rounds[0]), rounds[1..])
  }

  /** The stamps of the reports made during a run. */
  function ReportTimes(m: Monitor, oneSec: nat, s: Status, rounds: seq<Round>): seq<nat>
    decreases rounds
  {
    if rounds == [] then [] else
    var later := ReportTimes(m, oneSec, Next(m, oneSec, s, rounds[0]), rounds[1..]);
    if Reports(m, oneSec, s, rounds[0]) then [rounds[0].stampTime] + later else later
  }

  /** The clock never runs backwards from `now` on and stays a period below its 64-bit wrap. */
  ghost predicate ClockFrom(now: nat, period: nat, rounds: seq<Round>)
    decreases rounds
  {
    rounds == [] ||
    (now <= rounds[0].checkTime <= rounds[0].stampTime && rounds[0].stampTime + period < U64
      && ClockFrom(rounds[0].stampTime, period, rounds[1..]))
  }

  /** Reports are more than a period apart, the first one counted from `start`. */
  ghost predicate Spaced(start: nat, period: nat, times: seq<nat>)
    decreases times
  {
    times == [] || (times[0] > start + period && Spaced(times[0], period, times[1..]))
  }

  lemma {:induction false} ReportsAreSpaced(m: Monitor, oneSec: nat, s: Status, rounds: seq<Round>, now: nat)
    requires s.throttleStart <= now && now + Period(m, oneSec) < U64
    requires ClockFrom(now, Period(m, oneSec), rounds)
    ensures Spaced(s.throttleStart, Period(m, oneSec), ReportTimes(m, oneSec, s, rounds))
    decreases rounds
  {
    if rounds != [] {
      var next := Next(m, oneSec, s, rounds[0]);
      var later := ReportTimes(m, oneSec, next, rounds[1..]);
      ReportsAreSpaced(m, oneSec, next, rounds[1..], rounds[0].stampTime);
      if Reports(m, oneSec, s, rounds[0]) {
        assert ReportTimes(m, oneSec, s, rounds)[1..] == later;
      }
    }
  }

  lemma {:induction false} SpacedGap(start: nat, period: nat, times: seq<nat>, i: nat, j: nat)
    requires Spaced(start, period, times) && i <= j < |times|
    ensures times[i] > start + period
    ensures times[j] - times[i] >= (j - i) * (period + 1)
    decreases times
  {
    if i > 0 {
      SpacedGap(times[0], period, times[1..], i - 1, j - 1);
    } else if j > 0 {
      SpacedGap(times[0], period, times[1..], 0, j - 1);
      assert j * (period + 1) == (j - 1) * (period + 1) + (period + 1);
    }
  }

  /** Whatever the registers do: over any span of the run, `n` reports take more than `n - 1` periods. */
  lemma RateLimit(m: Monitor, oneSec: nat, rounds: seq<Round>, i: nat, j: nat)
    requires Period(m, oneSec) < U64 && ClockFrom(0, Period(m, oneSec), rounds)
    requires i <= j < |ReportTimes(m, oneSec, INITIAL, rounds)|
    ensures var times, period := ReportTimes(m, oneSec, INITIAL, rounds), m.throttleScale * oneSec;
      times[i] > period && times[j] - times[i] >= (j - i) * (period + 1)
  {
    ReportsAreSpaced(m, oneSec, INITIAL, rounds, 0);
    SpacedGap(0, Period(m, oneSec), ReportTimes(m, oneSec, INITIAL, rounds), i, j);
  }

  function LastTime(now: nat, rounds: seq<Round>): nat {
    if rounds == [] then now else rounds[|rounds| - 1].stampTime
  }

  /** One round keeps the counter behind the clock. */
  lemma CountStep(m: Monitor, oneSec: nat, s: Status, r: Round, now: nat)
    requires s.count * (Period(m, oneSec) + 1) <= s.throttleStart <= now <= r.checkTime <= r.stampTime
    requires now + Period(m, oneSec) < U64
    ensures var t := Next(m, oneSec, s, r);
      && t.count * (Period(m, oneSec) + 1) <= t.throttleStart <= r.stampTime
      && t.count == s.count + (if Reports(m, oneSec, s, r) then 1 else 0)
  {
    var p := Period(m, oneSec);
    assert (s.count + 1) * (p + 1) == s.count * (p + 1) + (p + 1);
  }

  lemma {:induction false} CountedFrom(m: Monitor, oneSec: nat, s: Status, rounds: seq<Round>, now: nat)
    requires s.count * (Period(m, oneSec) + 1) <= s.throttleStart <= now && now + Period(m, oneSec) < U64
    requires ClockFrom(now, Period(m, oneSec), rounds)
    ensures var t := Run(m, oneSec, s, rounds);
      && t.count * (Period(m, oneSec) + 1) <= t.throttleStart <= LastTime(now, rounds)
      && t.count == s.count + |ReportTimes(m, oneSec, s, rounds)|
    decreases rounds
  {
    if rounds != [] {
      CountStep(m, oneSec, s, rounds[0], now);
      CountedFrom(m, oneSec, Next(m, oneSec, s, rounds[0]), rounds[1..], rounds[0].stampTime);
    }
  }

  /** The report counter never outruns the clock. */
  lemma CountBounded(m: Monitor, oneSec: nat, rounds: seq<Round>)
    requires Period(m, oneSec) < U64 && ClockFrom(0, Period(m, oneSec), rounds)
    ensures var t := Run(m, oneSec, INITIAL, rounds);
      && t.count * (Period(m, oneSec) + 1) <= t.throttleStart <= LastTime(0, rounds)
      && t.count == |ReportTimes(m, oneSec, INITIAL, rounds)|
  {
    CountedFrom(m, oneSec, INITIAL, rounds, 0);
  }

  // ---------------------------------------------------------------- what consecutive reports carry

  /** The samples reported during a run. */
  function ReportSamples(m: Monitor, oneSec: nat, s: Status, rounds: seq<Round>): seq<nat>
    decreases rounds
  {
    if rounds == [] then [] else
    var later := ReportSamples(m, oneSec, Next(m, oneSec, s, rounds[0]), rounds[1..]);
    if Reports(m, oneSec, s, rounds[0]) then [Sample(m, rounds[0].register)] + later else later
  }

  ghost predicate Registers(rounds: seq<Round>) { forall i :: 0 <= i < |rounds| ==> rounds[i].register < U64 }

  /** The sample is one to report, if it is new. */
  predicate Fires(m: Monitor, value: nat) {
    match m.checkType
    case AboveThreshold => value > m.maxValue
    case BelowThreshold => value < m.minValue
    case AboveOrBelow => value > m.maxValue || value < m.minValue
    case EqualTo => value == m.maxValue
    case NotEqualTo => value != m.maxValue
    case ChangedSinceLast => true
  }

  /** A register content that is reported and does not fit in `lastValue`. */
  ghost predicate CutOff(m: Monitor, register: nat) {
    register < U64 && Sample(m, register) >= U32 && Fires(m, Sample(m, register))
  }

  ghost predicate Truncates(m: Monitor) { exists register: nat :: CutOff(m, register) }

  /** In a run, a sample reported twice in a row is one that does not fit. */
  lemma {:induction false} RepeatsAreCutOff(m: Monitor, oneSec: nat, s: Status, rounds: seq<Round>)
    requires Registers(rounds)
    ensures var v := ReportSamples(m, oneSec, s, rounds);
      && (v != [] ==> v[0] != s.lastValue)
      && forall i, j :: 0 <= i < |v| && j == i + 1 && j < |v| && v[i] == v[j] ==> v[i] >= U32 && Truncates(m)
    decreases rounds
  {
    if rounds != [] {
      var next, r := Next(m, oneSec, s, rounds[0]), rounds[0].register;
      RepeatsAreCutOff(m, oneSec, next, rounds[1..]);
      var v, later := ReportSamples(m, oneSec, s, rounds), ReportSamples(m, oneSec, next, rounds[1..]);
      if Reports(m, oneSec, s, rounds[0]) {
        assert v == [Sample(m, r)] + later;
        if later != [] && later[0] == Sample(m, r) { assert CutOff(m, r); }
        forall i, j | 0 <= i < |v| && j == i + 1 && j < |v| && v[i] == v[j] ensures v[i] >= U32 && Truncates(m) {
          if i > 0 { assert v[i] == later[i - 1] && v[j] == later[j - 1]; }
        }
      }
    }
  }

  /** Whatever the registers do, no two consecutive reports of a run carry the same sample. */
  ghost predicate NewsOnly(m: Monitor, oneSec: nat) {
    forall rounds :: ClockFrom(0, Period(m, oneSec), rounds) && Registers(rounds) ==>
      AdjacentDiffer(ReportSamples(m, oneSec, INITIAL, rounds))
  }

  ghost predicate AdjacentDiffer(v: seq<nat>) { forall i, j :: 0 <= i < |v| && j == i + 1 && j < |v| ==> v[i] != v[j] }

  /** A run with two reports has time for three periods. */
  lemma {:induction false} TwoReportsTakeTime(m: Monitor, oneSec: nat, rounds: seq<Round>)
    requires ClockFrom(0, Period(m, oneSec), rounds) && |ReportTimes(m, oneSec, INITIAL, rounds)| >= 2
    ensures 3 * Period(m, oneSec) + 2 < U64
  {
    RateLimit(m, oneSec, rounds, 0, 1);
    StampsBounded(m, oneSec, INITIAL, rounds, 0, 1);
  }

  lemma {:induction false} StampsBounded(m: Monitor, oneSec: nat, s: Status, rounds: seq<Round>, now: nat, i: nat)
    requires ClockFrom(now, Period(m, oneSec), rounds) && i < |ReportTimes(m, oneSec, s, rounds)|
    ensures ReportTimes(m, oneSec, s, rounds)[i] + Period(m, oneSec) < U64
    decreases rounds
  {
    var next := Next(m, oneSec, s, rounds[0]);
    if !Reports(m, oneSec, s, rounds[0]) {
      StampsBounded(m, oneSec, next, rounds[1..], rounds[0].stampTime, i);
    } else if i > 0 {
      StampsBounded(m, oneSec, next, rounds[1..], rounds[0].stampTime, i - 1);
    }
  }

  lemma {:induction false} SampleForEachTime(m: Monitor, oneSec: nat, s: Status, rounds: seq<Round>)
    ensures |ReportSamples(m, oneSec, s, rounds)| == |ReportTimes(m, oneSec, s, rounds)|
    decreases rounds
  {
    if rounds != [] { SampleForEachTime(m, oneSec, Next(m, oneSec, s, rounds[0]), rounds[1..]); }
  }

  /** The register never changes. A monitor of changes only takes note of it in the first round; the others
      report in that round and are throttled in the second. */
  function Constant(register: nat, period: nat): seq<Round> {
    var first, second := Round(register, period + 1, period + 1), Round(register, 2 * period + 2, 2 * period + 2);
    [first, first, second]
  }

  lemma ReportedTwice(m: Monitor, oneSec: nat, register: nat)
    requires CutOff(m, register) && 3 * Period(m, oneSec) + 2 < U64
    ensures var rounds := Constant(register, Period(m, oneSec));
      && ClockFrom(0, Period(m, oneSec), rounds) && Registers(rounds)
      && ReportSamples(m, oneSec, INITIAL, rounds) == [Sample(m, register), Sample(m, register)]
  {
    var p, v := Period(m, oneSec), Sample(m, register);
    var rounds := Constant(register, p);
    var s1 := Next(m, oneSec, INITIAL, rounds[0]);
    var s2 := Next(m, oneSec, s1, rounds[1]);
    hide Sample, Period;
    assert rounds[1..] == [rounds[1], rounds[2]] && rounds[1..][1..] == [rounds[2]] && rounds[1..][1..][1..] == [];
    assert s2.throttleStart == p + 1 && s2.lastValue == v % U32;
    assert ReportSamples(m, oneSec, s2, [rounds[2]]) == [v];
    assert ClockFrom(2 * p + 2, p, []) && ClockFrom(p + 1, p, [rounds[2]]) && ClockFrom(p + 1, p, rounds[1..]);
  }

  /** Consecutive reports carry different samples, in every run, exactly if no register content that is reported
      is cut off in `lastValue`, or the clock leaves no time for a second report. */
  lemma NewsOnlyIff(m: Monitor, oneSec: nat)
    ensures NewsOnly(m, oneSec) <==> !(Truncates(m) && 3 * Period(m, oneSec) + 2 < U64)
  {
    if Truncates(m) && 3 * Period(m, oneSec) + 2 < U64 {
      var register: nat :| CutOff(m, register);
      ReportedTwice(m, oneSec, register);
      var v := ReportSamples(m, oneSec, INITIAL, Constant(register, Period(m, oneSec)));
      assert v[0] == v[1] && !AdjacentDiffer(v);
    } else {
      forall rounds | ClockFrom(0, Period(m, oneSec), rounds) && Registers(rounds)
        ensures AdjacentDiffer(ReportSamples(m, oneSec, INITIAL, rounds))
      {
        RepeatsAreCutOff(m, oneSec, INITIAL, rounds);
        SampleForEachTime(m, oneSec, INITIAL, rounds);
        if |ReportTimes(m, oneSec, INITIAL, rounds)| >= 2 { TwoReportsTakeTime(m, oneSec, rounds); }
      }
    }
  }

  // ---------------------------------------------------------------- which monitors truncate

  lemma {:induction false} ShrMonotone(a: nat, b: nat, n: nat)
    requires a <= b
    ensures Shr(a, n) <= Shr(b, n)
    decreases n
  {
    if n > 0 { ShrMonotone(a / 2, b / 2, n - 1); }
  }

  lemma {:induction false} AndOnes(a: nat, b: nat, n: nat)
    requires a < Pow2(n)
    ensures And(a, b) <= And(Pow2(n) - 1, b)
    decreases n
  {
    if n > 0 && a != 0 && b != 0 {
      AndOnes(a / 2, b / 2, n - 1);
      assert (Pow2(n) - 1) / 2 == Pow2(n - 1) - 1 && (Pow2(n) - 1) % 2 == 1;
    }
  }

  lemma {:induction false} ShrOnes(n: nat, k: nat)
    ensures Shr(Pow2(n) - 1, k) == if k <= n then Pow2(n - k) - 1 else 0
    decreases k
  {
    if k > 0 && n > 0 {
      assert (Pow2(n) - 1) / 2 == Pow2(n - 1) - 1;
      ShrOnes(n - 1, k - 1);
    } else if k > 0 {
      ShrOnes(0, k - 1);
    }
  }

  lemma WidestOf(value: nat, n: nat, shift: nat, mask: nat)
    requires value < Pow2(n)
    ensures Shr(value, shift) <= Shr(Pow2(n) - 1, shift)
    ensures And(Shr(value, shift), mask) <= And(Shr(Pow2(n) - 1, shift), mask)
  {
    hide Shr, And, Pow2;
    ShrMonotone(value, Pow2(n) - 1, shift);
    ShrOnes(n, shift);
    AndOnes(Shr(value, shift), mask, if shift <= n then n - shift else 0);
    OneBit();
  }

  lemma OneBit()
    ensures Pow2(0) == 1
  {
  }

  /** With all register bits set, the sample is as large as it gets. */
  lemma WidestSample(m: Monitor, register: nat)
    requires register < U64
    ensures Sample(m, register) <= Sample(m, U64 - 1)
  {
    NoShift(if m.mask > 0xFFFF_FFFF then register else register % U32);
    NoShift(if m.mask > 0xFFFF_FFFF then U64 - 1 else U32 - 1);
    hide Shr, And, Pow2;
    WordSizes();
    if m.mask > 0xFFFF_FFFF {
      WidestOf(register, 64, m.shift, m.mask);
    } else {
      WidestOf(register % U32, 32, m.shift, m.mask);
    }
  }

  /** So a monitor of changes, or of an upper threshold, truncates exactly if that sample is cut off. */
  lemma TruncatesIff(m: Monitor)
    requires m.checkType == ChangedSinceLast || m.checkType == AboveThreshold
    ensures Truncates(m) <==> CutOff(m, U64 - 1)
  {
    if register: nat :| CutOff(m, register) { WidestSample(m, register); }
  }

  /** No monitor does that reads 32 bits only or shifts the lower half out. */
  lemma NarrowNeverTruncates(m: Monitor)
    requires m.mask <= 0xFFFF_FFFF || m.shift >= 32
    ensures !Truncates(m)
  {
    forall register: nat ensures !CutOff(m, register) {
      if register < U64 {
        WidestSample(m, register);
        WidestIsNarrow(m);
      }
    }
  }

  lemma {:induction false} AndBelow(a: nat, b: nat)
    ensures And(a, b) <= a
    decreases a
  {
    if a != 0 && b != 0 { AndBelow(a / 2, b / 2); }
  }

  lemma WidestIsNarrow(m: Monitor)
    requires m.mask <= 0xFFFF_FFFF || m.shift >= 32
    ensures Sample(m, U64 - 1) < U32
  {
    var n := if m.mask > 0xFFFF_FFFF then 64 else 32;
    NoShift(U32 - 1);
    hide Shr, And, Pow2;
    WordSizes();
    ShrOnes(n, m.shift);
    AndBelow(Shr(Pow2(n) - 1, m.shift), m.mask);
    if m.shift <= n && n - m.shift < 32 { Pow2Monotone(n - m.shift, 32); }
  }
}
