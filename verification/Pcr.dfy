/** Program clock references (src/mpegts_pcr.cpp): decoding, differences, and the per-PID tracker.
    Milliseconds are exact reals. */
module PcrTracking {
  import opened Bytes
  import Clock

  const BASE_LIMIT: int := 0x2_0000_0000
  const PCR_MAX: int := 0x2_0000_0000 * 300

  datatype Pcr = Pcr(base: nat, extension: nat)
  {
    /** The value in 27 MHz ticks. */
    function Ticks(): nat { base * 300 + extension }

    predicate IsValid() { base < BASE_LIMIT && extension < 300 }
  }

  datatype Sample = Sample(pcr: Pcr, packetNumber: nat, cc: nat)

  // ------------------------------------------------------------------------------------------
  // Decoding
  // ------------------------------------------------------------------------------------------

  /** The PCR of an adaptation field (after its length octet). With the flag set, the code reads
      seven octets although it only asks for six, so exactly six with the flag are outside its domain. */
  function ExtractPCR(field: seq<Byte>): Option<Pcr>
    requires |field| == 6 ==> !BitOf(field[0], 4)
  {
    if |field| < 6 || !BitOf(field[0], 4) then None else
    var b0: int, b1: int, b2: int, b3: int, b4: int := field[1], field[2], field[3], field[4], field[5];
    var base := b0 * 0x200_0000 + b1 * 0x2_0000 + b2 * 0x200 + b3 * 2 + b4 / 128;
    var pcr := Pcr(base, U16(field[5] % 2, field[6]));
    if pcr.IsValid() then Some(pcr) else None
  }

  /** The six octets of a PCR: 33 bits of base, six reserved ones, nine bits of extension. */
  function EncodePCR(p: Pcr): (b: seq<Byte>)
    requires p.IsValid()
    ensures |b| == 6
  {
    [p.base / 0x200_0000, p.base / 0x2_0000 % 256, p.base / 0x200 % 256, p.base / 2 % 256,
     p.base % 2 * 128 + 126 + p.extension / 256, p.extension % 256]
  }

  lemma PcrRoundTrip(p: Pcr, flags: Byte, rest: seq<Byte>)
    requires p.IsValid() && BitOf(flags, 4)
    ensures ExtractPCR([flags] + EncodePCR(p) + rest) == Some(p)
  {
    var b, field := EncodePCR(p), [flags] + EncodePCR(p) + rest;
    BaseParts(p.base);
    SharedOctet(p.base % 2, p.extension);
    assert forall k | 0 <= k < 6 :: field[1 + k] == b[k];
    assert field[0] == flags;
    hide BitOf;
  }

  /** The octet with the last bit of the base and the first of the extension. */
  lemma SharedOctet(bit: nat, extension: nat)
    requires bit < 2 && extension < 300
    ensures (bit * 128 + 126 + extension / 256) / 128 == bit
    ensures (bit * 128 + 126 + extension / 256) % 2 == extension / 256
    ensures extension / 256 * 256 + extension % 256 == extension
  {}

  /** A PCR is decoded exactly from seven octets with flag 0x10 and an extension below 300; what is
      decoded is a valid PCR, 33 bits and 9 bits of the octets. */
  lemma ExtractedExactly(field: seq<Byte>)
    requires |field| == 6 ==> !BitOf(field[0], 4)
    ensures ExtractPCR(field).Some?
      <==> |field| >= 7 && field[0] / 16 % 2 == 1 && field[5] as int % 2 * 256 + field[6] as int < 300
    ensures ExtractPCR(field).Some? ==>
      var p := ExtractPCR(field).value;
      && p.base < 0x2_0000_0000 && p.extension < 300
      && p.extension == field[5] as int % 2 * 256 + field[6] as int
      && p.base == field[1] as int * 33554432 + field[2] as int * 131072 + field[3] as int * 512 + field[4] as int * 2
                   + field[5] as int / 128
  {}

  lemma BaseParts(base: nat)
    requires base < BASE_LIMIT
    ensures base == base / 0x200_0000 * 0x200_0000 + base / 0x2_0000 % 256 * 0x2_0000 + base / 0x200 % 256 * 0x200
      + base / 2 % 256 * 2 + base % 2
  {
    var a := base / 2;
    assert base == 2 * a + base % 2;
    assert base / 0x200 == a / 256 && base / 0x2_0000 == a / 256 / 256 && base / 0x200_0000 == a / 256 / 256 / 256;
    assert a == a / 256 * 256 + a % 256;
    assert a / 256 == a / 256 / 256 * 256 + a / 256 % 256;
    assert a / 256 / 256 == a / 256 / 256 / 256 * 256 + a / 256 / 256 % 256;
  }

  // ------------------------------------------------------------------------------------------
  // Differences
  // ------------------------------------------------------------------------------------------

  /** The signed difference in ticks, with one correction for wrap-around. */
  function PcrDifference(a: Pcr, b: Pcr): int {
    Clock.Difference(a.Ticks(), b.Ticks(), PCR_MAX)
  }

  function PcrDifferenceMs(a: Pcr, b: Pcr): real {
    PcrDifference(a, b) as real / 27000.0
  }

  /** On valid PCRs the difference is the shortest way round the 2^33 * 300 tick clock, and is
      exactly antisymmetric. */
  lemma PcrDifferenceIsShortest(a: Pcr, b: Pcr, other: int)
    requires a.IsValid() && b.IsValid() && Clock.Leads(a.Ticks(), b.Ticks(), PCR_MAX, other)
    ensures PCR_MAX == 2576980377600
    ensures var d := PcrDifference(a, b);
      && Clock.Leads(a.Ticks(), b.Ticks(), PCR_MAX, d) && -PCR_MAX / 2 <= d <= PCR_MAX / 2
      && (if d < 0 then -d else d) <= (if other < 0 then -other else other)
      && PcrDifference(b, a) == -d
  {
    Clock.DifferenceIsShortest(a.Ticks(), b.Ticks(), PCR_MAX, other);
    Clock.Antisymmetric(a.Ticks(), b.Ticks(), PCR_MAX);
  }

  // ------------------------------------------------------------------------------------------
  // The tracker
  // ------------------------------------------------------------------------------------------

  const MAX_SAMPLES: nat := 1000
  const RECENT_SAMPLES: nat := 100

  datatype TrackerState = TrackerState(samples: seq<Sample>, averageIntervalMs: real, maxJitterMs: real,
                                       discontinuity: bool)

  const EMPTY_TRACKER := TrackerState([], 0.0, 0.0, false)

  function Interval(a: Sample, b: Sample): real {
    PcrDifferenceMs(a.pcr, b.pcr)
  }

  lemma SameClock(a: Sample, b: Sample)
    requires a.pcr == b.pcr
    ensures Interval(a, b) == 0.0
  {
    Clock.NoDifference(a.pcr.Ticks(), PCR_MAX);
    assert PcrDifference(a.pcr, b.pcr) == 0;
    hide PcrDifference;
    assert 0 as real / 27000.0 == 0.0;
  }

  /** Intervals that enter the statistics. */
  predicate Usable(interval: real) {
    0.0 < interval < 100.0
  }

  predicate Jumps(interval: real) {
    interval < 0.0 || interval > 100.0
  }

  function Jitter(interval: real): real {
    if interval >= 40.0 then interval - 40.0 else 40.0 - interval
  }

  function Last<T>(s: seq<T>, n: nat): seq<T> {
    if |s| <= n then s else s[|s| - n..]
  }

  /** The sum of the usable intervals between neighbours of the samples. */
  function UsableSum(s: seq<Sample>): real {
    if |s| < 2 then 0.0 else
    var iv := Interval(s[|s| - 2], s[|s| - 1]);
    UsableSum(s[..|s| - 1]) + if Usable(iv) then iv else 0.0
  }

  function UsableCount(s: seq<Sample>): nat {
    if |s| < 2 then 0 else
    var iv := Interval(s[|s| - 2], s[|s| - 1]);
    UsableCount(s[..|s| - 1]) + if Usable(iv) then 1 else 0
  }

  lemma OneSample(s: seq<Sample>)
    requires |s| < 2
    ensures UsableSum(s) == 0.0 && UsableCount(s) == 0
  {}

  lemma NextSample(s: seq<Sample>, start: nat, i: nat)
    requires start <= i < |s| - 1
    ensures var iv := Interval(s[i], s[i + 1]); var usable := 0.0 < iv < 100.0;
      && UsableSum(s[start..i + 2]) == UsableSum(s[start..i + 1]) + (if usable then iv else 0.0)
      && UsableCount(s[start..i + 2]) == UsableCount(s[start..i + 1]) + (if usable then 1 else 0)
  {
    hide Interval;
    var t := s[start..i + 2];
    assert t[..|t| - 1] == s[start..i + 1];
  }

  /** The mean of the usable recent intervals, or the former average if there is none. */
  function Average(s: seq<Sample>, former: real): real {
    var recent := Last(s, RECENT_SAMPLES);
    if UsableCount(recent) > 0 then UsableSum(recent) / UsableCount(recent) as real else former
  }

  lemma AverageOfFew(s: seq<Sample>, former: real)
    requires |s| < 2
    ensures Average(s, former) == former
  {
    OneSample(Last(s, RECENT_SAMPLES));
  }

  lemma AverageIs(s: seq<Sample>, former: real, start: nat, total: real, count: nat)
    requires start == (if |s| < 100 then 0 else |s| - 100)
    requires total == UsableSum(s[start..]) && count == UsableCount(s[start..])
    ensures Average(s, former) == if count > 0 then total / count as real else former
  {
    hide UsableSum;
    hide UsableCount;
    assert Last(s, RECENT_SAMPLES) == s[start..];
  }

  /** The tracker after one more sample. */
  function Tracked(t: TrackerState, s: Sample): TrackerState {
    var samples := Last(t.samples + [s], MAX_SAMPLES);
    var average := Average(samples, t.averageIntervalMs);
    if t.samples == [] then t.(samples := samples, averageIntervalMs := average) else
    var iv := Interval(t.samples[|t.samples| - 1], s);
    TrackerState(samples, average,
                 (if Usable(iv) && Jitter(iv) > t.maxJitterMs then Jitter(iv) else t.maxJitterMs),
                 t.discontinuity || Jumps(iv))
  }

  lemma ProductSign(x: real, c: real)
    requires c >= 0.0
    ensures x >= 0.0 ==> x * c >= 0.0
    ensures x <= 0.0 ==> x * c <= 0.0
    ensures x < 0.0 && c > 0.0 ==> x * c < 0.0
  {}

  lemma QuotientSign(x: real, c: real)
    requires c > 0.0 && x >= 0.0
    ensures x / c >= 0.0
  {
    assert x / c * c == x;
    ProductSign(x / c, c);
  }

  // ------------------------------------------------------------------------------------------
  // Interpolation
  // ------------------------------------------------------------------------------------------

  /** The number of samples before the first one with a larger packet number. */
  function Leading(s: seq<Sample>, packetNumber: nat): (k: nat)
    ensures k <= |s|
    ensures forall i | 0 <= i < k :: s[i].packetNumber <= packetNumber
    ensures k < |s| ==> s[k].packetNumber > packetNumber
  {
    if s == [] || s[0].packetNumber > packetNumber then 0 else 1 + Leading(s[1..], packetNumber)
  }

  lemma LeadingStep(s: seq<Sample>, packetNumber: nat, i: nat)
    requires i < |s| && i <= Leading(s, packetNumber)
    ensures s[i].packetNumber <= packetNumber <==> i + 1 <= Leading(s, packetNumber)
  {}

  function FromTicks(v: nat): Pcr {
    Pcr(v / 300, v % 300)
  }

  /** Conversion of a real to an unsigned integer, defined above -1. */
  function Truncate(x: real): nat
    requires x > -1.0
  {
    if x < 0.0 then 0 else x.Floor
  }

  function U64Difference(a: nat, b: nat): nat {
    (a - b) % 0x1_0000_0000_0000_0000
  }

  function Ratio(a: Sample, b: Sample, packetNumber: nat): real
    requires a.packetNumber <= packetNumber < b.packetNumber
  {
    (packetNumber - a.packetNumber) as real / (b.packetNumber - a.packetNumber) as real
  }

  /** The share of the difference of two samples that falls before the packet, in ticks. */
  function Share(a: Sample, b: Sample, packetNumber: nat): real
    requires a.packetNumber <= packetNumber < b.packetNumber
  {
    Scale(PcrDifference(a.pcr, b.pcr) as real, Ratio(a, b, packetNumber))
  }

  function Scale(d: real, ratio: real): real {
    d * ratio
  }

  predicate BetweenDefined(a: Sample, b: Sample, packetNumber: nat) {
    a.packetNumber <= packetNumber < b.packetNumber && Share(a, b, packetNumber) > -1.0
  }

  /** Linear interpolation between two samples around the packet. */
  function Between(a: Sample, b: Sample, packetNumber: nat): Pcr
    requires BetweenDefined(a, b, packetNumber)
  {
    FromTicks(a.pcr.Ticks() + Truncate(Share(a, b, packetNumber)))
  }

  /** The time from b to the packet at the mean pace between a and b. */
  function ExtrapolationMs(interval: real, packets: nat, distance: nat): (ms: real)
    requires packets > 0 && interval > 0.0
    ensures ms >= 0.0
  {
    QuotientSign(interval, packets as real);
    ProductSign(interval / packets as real, distance as real);
    interval / packets as real * distance as real
  }

  /** Extrapolation from the last two samples. */
  function Beyond(a: Sample, b: Sample, packetNumber: nat): Option<Pcr>
    requires b.packetNumber <= packetNumber
  {
    var packets := U64Difference(b.packetNumber, a.packetNumber);
    var interval := Interval(a, b);
    if packets > 0 && interval > 0.0 then
      Some(FromTicks(b.pcr.Ticks()
        + Truncate(ExtrapolationMs(interval, packets, packetNumber - b.packetNumber) * 27000.0)))
    else None
  }

  predicate InterpolationDefined(s: seq<Sample>, packetNumber: nat) {
    var k := Leading(s, packetNumber);
    0 < k < |s| ==> BetweenDefined(s[k - 1], s[k], packetNumber)
  }

  function Interpolated(s: seq<Sample>, packetNumber: nat): Option<Pcr>
    requires InterpolationDefined(s, packetNumber)
  {
    var k := Leading(s, packetNumber);
    if |s| < 2 || k == 0 then None else
    if k < |s| then Some(Between(s[k - 1], s[k], packetNumber))
    else Beyond(s[k - 2], s[k - 1], packetNumber)
  }

  predicate Increasing(s: seq<Sample>) {
    forall i | 0 < i < |s| :: s[i - 1].packetNumber < s[i].packetNumber
  }

  /** Packet numbers strictly increase and PCRs never step back or wrap. */
  predicate Forward(s: seq<Sample>) {
    && Increasing(s)
    && (forall i | 0 <= i < |s| :: s[i].pcr.IsValid())
    && (forall i | 0 < i < |s| :: 0 <= s[i].pcr.Ticks() - s[i - 1].pcr.Ticks() <= PCR_MAX / 2)
  }

  predicate Inside(s: seq<Sample>, packetNumber: nat) {
    |s| >= 2 && s[0].packetNumber <= packetNumber < s[|s| - 1].packetNumber
  }

  lemma RatioRange(a: Sample, b: Sample, n: nat)
    requires a.packetNumber <= n < b.packetNumber
    ensures 0.0 <= Ratio(a, b, n) < 1.0
    ensures n == a.packetNumber ==> Ratio(a, b, n) == 0.0
  {
    var r := Ratio(a, b, n);
    var total := (b.packetNumber - a.packetNumber) as real;
    assert r * total == (n - a.packetNumber) as real;
    assert (r - 1.0) * total == r * total - total;
    ProductSign(r, total);
    ProductSign(r - 1.0, total);
  }

  lemma RatioMonotone(a: Sample, b: Sample, m: nat, n: nat)
    requires a.packetNumber <= m <= n < b.packetNumber
    ensures Ratio(a, b, m) <= Ratio(a, b, n)
  {
    var p, q := Ratio(a, b, m), Ratio(a, b, n);
    var total := (b.packetNumber - a.packetNumber) as real;
    assert p * total == (m - a.packetNumber) as real && q * total == (n - a.packetNumber) as real;
    assert (p - q) * total == p * total - q * total;
    ProductSign(p - q, total);
  }

  lemma ShareRange(a: Sample, b: Sample, n: nat)
    requires a.packetNumber <= n < b.packetNumber && PcrDifference(a.pcr, b.pcr) >= 0
    ensures 0.0 <= Share(a, b, n) <= PcrDifference(a.pcr, b.pcr) as real
    ensures n == a.packetNumber ==> Share(a, b, n) == 0.0
  {
    RatioRange(a, b, n);
    hide Ratio;
    hide PcrDifference;
    ScaleRange(PcrDifference(a.pcr, b.pcr) as real, Ratio(a, b, n));
  }

  lemma ScaleRange(d: real, r: real)
    requires d >= 0.0 && 0.0 <= r <= 1.0
    ensures 0.0 <= Scale(d, r) <= d
    ensures r == 0.0 ==> Scale(d, r) == 0.0
  {
    ProductSign(r, d);
    ProductSign(1.0 - r, d);
    assert (1.0 - r) * d == d - d * r;
  }

  lemma ScaleMonotone(d: real, p: real, q: real)
    requires d >= 0.0 && p <= q
    ensures Scale(d, p) <= Scale(d, q)
  {
    ProductSign(q - p, d);
    assert (q - p) * d == d * q - d * p;
  }

  lemma ForwardDifference(a: Pcr, b: Pcr)
    requires 0 <= b.Ticks() - a.Ticks() <= PCR_MAX / 2
    ensures PcrDifference(a, b) == b.Ticks() - a.Ticks()
  {}

  lemma FromTicksValid(v: nat, limit: Pcr)
    requires limit.IsValid() && v <= limit.Ticks()
    ensures FromTicks(v).IsValid() && FromTicks(v).Ticks() == v
  {}

  lemma TicksRoundTrip(p: Pcr)
    requires p.IsValid()
    ensures FromTicks(p.Ticks()) == p
  {}

  /** Between two samples the result is a valid PCR between theirs, and exact at the first. */
  lemma BetweenRange(a: Sample, b: Sample, n: nat)
    requires a.pcr.IsValid() && b.pcr.IsValid() && a.packetNumber <= n < b.packetNumber
    requires 0 <= b.pcr.Ticks() - a.pcr.Ticks() <= PCR_MAX / 2
    ensures BetweenDefined(a, b, n)
    ensures var r := Between(a, b, n); a.pcr.Ticks() <= r.Ticks() <= b.pcr.Ticks() && r.IsValid()
    ensures n == a.packetNumber ==> Between(a, b, n) == a.pcr
  {
    ForwardDifference(a.pcr, b.pcr);
    ShareRange(a, b, n);
    hide Share;
    hide PcrDifference;
    var v := a.pcr.Ticks() + Truncate(Share(a, b, n));
    FromTicksValid(v, b.pcr);
    TicksRoundTrip(a.pcr);
  }

  lemma BetweenMonotone(a: Sample, b: Sample, m: nat, n: nat)
    requires a.pcr.IsValid() && b.pcr.IsValid() && a.packetNumber <= m <= n < b.packetNumber
    requires 0 <= b.pcr.Ticks() - a.pcr.Ticks() <= PCR_MAX / 2
    requires BetweenDefined(a, b, m) && BetweenDefined(a, b, n)
    ensures Between(a, b, m).Ticks() <= Between(a, b, n).Ticks()
  {
    ForwardDifference(a.pcr, b.pcr);
    ShareMonotone(a, b, m, n);
    ShareRange(a, b, m);
    hide Share;
    hide PcrDifference;
    TruncateMonotone(Share(a, b, m), Share(a, b, n));
  }

  lemma ShareMonotone(a: Sample, b: Sample, m: nat, n: nat)
    requires a.packetNumber <= m <= n < b.packetNumber && PcrDifference(a.pcr, b.pcr) >= 0
    ensures Share(a, b, m) <= Share(a, b, n)
  {
    RatioMonotone(a, b, m, n);
    hide Ratio;
    hide Scale;
    hide PcrDifference;
    ScaleMonotone(PcrDifference(a.pcr, b.pcr) as real, Ratio(a, b, m), Ratio(a, b, n));
  }

  lemma TruncateMonotone(x: real, y: real)
    requires 0.0 <= x <= y
    ensures Truncate(x) <= Truncate(y)
  {}

  lemma {:induction false} NumbersIncrease(s: seq<Sample>, i: nat, j: nat)
    requires Increasing(s) && i <= j < |s|
    ensures i < j ==> s[i].packetNumber < s[j].packetNumber
    decreases j
  {
    if i < j { NumbersIncrease(s, i, j - 1); }
  }

  lemma {:induction false} TicksIncrease(s: seq<Sample>, i: nat, j: nat)
    requires Forward(s) && i <= j < |s|
    ensures s[i].pcr.Ticks() <= s[j].pcr.Ticks()
    decreases j
  {
    if i < j { TicksIncrease(s, i, j - 1); }
  }

  /** Inside the samples the search finds the bracketing neighbours. */
  lemma BracketFound(s: seq<Sample>, n: nat)
    requires Inside(s, n)
    ensures var k := Leading(s, n);
      0 < k < |s| && s[k - 1].packetNumber <= n < s[k].packetNumber
  {}

  /** Interpolation inside the samples yields a valid PCR between the bracketing ones. */
  lemma InterpolationBracketed(s: seq<Sample>, n: nat)
    requires Forward(s) && Inside(s, n)
    ensures InterpolationDefined(s, n) && Interpolated(s, n).Some?
    ensures var k := Leading(s, n); var r := Interpolated(s, n).value;
      r.IsValid() && s[k - 1].pcr.Ticks() <= r.Ticks() <= s[k].pcr.Ticks()
  {
    BracketFound(s, n);
    var k := Leading(s, n);
    BetweenRange(s[k - 1], s[k], n);
  }

  lemma LeadingAt(s: seq<Sample>, i: nat)
    requires Increasing(s) && i + 1 < |s|
    ensures Leading(s, s[i].packetNumber) == i + 1
  {
    var n := s[i].packetNumber;
    hide Leading;
    hide Increasing;
    LeadingSpec(s, n);
    forall j | 0 <= j <= i ensures s[j].packetNumber <= n { NumbersIncrease(s, j, i); }
    NumbersIncrease(s, i, i + 1);
  }

  lemma LeadingSpec(s: seq<Sample>, n: nat)
    ensures var k := Leading(s, n);
      && (forall i | 0 <= i < k :: s[i].packetNumber <= n) && (k < |s| ==> s[k].packetNumber > n)
  {}

  /** At a sample nothing of the difference to the next one is added. */
  lemma BetweenExact(a: Sample, b: Sample)
    requires a.packetNumber < b.packetNumber && a.pcr.IsValid()
    ensures BetweenDefined(a, b, a.packetNumber) && Between(a, b, a.packetNumber) == a.pcr
  {
    RatioRange(a, b, a.packetNumber);
    assert Share(a, b, a.packetNumber) == 0.0 by { hide PcrDifference; }
    TicksRoundTrip(a.pcr);
    hide Share;
  }

  /** It is exact at every sample before the last, however the PCRs move. */
  lemma InterpolationExact(s: seq<Sample>, i: nat)
    requires Increasing(s) && i + 1 < |s| && s[i].pcr.IsValid()
    ensures InterpolationDefined(s, s[i].packetNumber)
    ensures Interpolated(s, s[i].packetNumber) == Some(s[i].pcr)
  {
    hide Between;
    hide Beyond;
    hide BetweenDefined;
    hide Leading;
    LeadingAt(s, i);
    assert s[i + 1 - 1].packetNumber < s[i + 1].packetNumber;
    BetweenExact(s[i], s[i + 1]);
  }

  lemma FromTicksValidExactly(v: nat)
    ensures FromTicks(v).IsValid() <==> v < PCR_MAX
  {}

  // The reals in terms of the integers that a caller has.

  lemma TimesMonotone(x: int, y: int, t: nat)
    requires x <= y
    ensures x * t <= y * t
  {}

  lemma QuotientBelow(top: nat, bottom: nat, limit: int)
    requires bottom > 0
    ensures top / bottom < limit <==> top < limit * bottom
  {
    var q := top / bottom;
    assert top == q * bottom + top % bottom;
    assert (q + 1) * bottom == q * bottom + bottom;
    if q < limit { TimesMonotone(q + 1, limit, bottom); } else { TimesMonotone(limit, q, bottom); }
  }

  lemma SameSign(x: real, t: real)
    requires t > 0.0
    ensures (x > 0.0 <==> Scale(x, t) > 0.0) && (x < 0.0 <==> Scale(x, t) < 0.0)
  {
    ProductSign(x, t);
    ProductSign(-x, t);
    assert (-x) * t == -(x * t);
  }

  lemma ScaledDifference(x: real, y: real, t: real)
    ensures Scale(x - y, t) == Scale(x, t) - Scale(y, t)
  {}

  lemma ScaledIntegers(x: int, y: int)
    ensures Scale(x as real, y as real) == (x * y) as real
  {}

  lemma ScaledTwice(x: real, r: real, t: real)
    ensures Scale(Scale(x, r), t) == Scale(x, Scale(r, t))
  {}

  /** Comparing a fraction with an integer is comparing integers. */
  lemma FractionBelow(x: real, q: int, top: int, bottom: nat)
    requires bottom > 0 && Scale(x, bottom as real) == top as real
    ensures (x < q as real <==> top < q * bottom) && (x > q as real <==> top > q * bottom)
  {
    hide *;
    var t := bottom as real;
    ScaledDifference(x, q as real, t);
    ScaledIntegers(q, bottom);
    SameSign(x - q as real, t);
    var product := q * bottom;
    assert Scale(x - q as real, t) == top as real - product as real;
  }

  lemma FloorIs(x: real, q: int)
    requires !(x < q as real) && x < (q + 1) as real
    ensures x.Floor == q
  {}

  lemma FloorQuotient(x: real, top: nat, bottom: nat)
    requires bottom > 0 && Scale(x, bottom as real) == top as real
    ensures x >= 0.0 && x.Floor == top / bottom
  {
    hide *;
    var q := top / bottom;
    QuotientBelow(top, bottom, q);
    QuotientBelow(top, bottom, q + 1);
    FractionBelow(x, q, top, bottom);
    FractionBelow(x, q + 1, top, bottom);
    FractionBelow(x, 0, top, bottom);
    FloorIs(x, q);
  }

  lemma ShareTimes(a: Sample, b: Sample, n: nat)
    requires a.packetNumber <= n < b.packetNumber
    ensures Scale(Share(a, b, n), (b.packetNumber - a.packetNumber) as real)
      == (PcrDifference(a.pcr, b.pcr) * (n - a.packetNumber)) as real
  {
    RatioTimes(a, b, n);
    ShareIs(a, b, n);
    hide *;
    var d, r, t := PcrDifference(a.pcr, b.pcr) as real, Ratio(a, b, n), (b.packetNumber - a.packetNumber) as real;
    ScaledTwice(d, r, t);
    ScaledIntegers(PcrDifference(a.pcr, b.pcr), n - a.packetNumber);
  }

  lemma ShareIs(a: Sample, b: Sample, n: nat)
    requires a.packetNumber <= n < b.packetNumber
    ensures Share(a, b, n) == Scale(PcrDifference(a.pcr, b.pcr) as real, Ratio(a, b, n))
  {
    hide PcrDifference;
    hide Ratio;
    hide Scale;
  }

  lemma RatioTimes(a: Sample, b: Sample, n: nat)
    requires a.packetNumber <= n < b.packetNumber
    ensures Scale(Ratio(a, b, n), (b.packetNumber - a.packetNumber) as real) == (n - a.packetNumber) as real
  {}

  lemma DefinedIs(a: Sample, b: Sample, n: nat)
    requires a.packetNumber <= n < b.packetNumber
    ensures BetweenDefined(a, b, n) <==> Share(a, b, n) > -1.0
  {
    hide Share;
  }

  lemma TruncateIs(x: real)
    requires x > -1.0
    ensures Truncate(x) == if x < 0.0 then 0 else x.Floor
  {}

  /** Interpolation in integers: when it is defined, and the ticks that it adds. */
  lemma InterpolationInIntegers(a: Sample, b: Sample, n: nat)
    requires a.packetNumber <= n < b.packetNumber
    ensures var moved, span := PcrDifference(a.pcr, b.pcr) * (n - a.packetNumber), b.packetNumber - a.packetNumber;
      && (BetweenDefined(a, b, n) <==> moved + span > 0)
      && (BetweenDefined(a, b, n) ==>
            Share(a, b, n) > -1.0 && Truncate(Share(a, b, n)) == if moved < 0 then 0 else moved / span)
  {
    hide *;
    var moved, span := PcrDifference(a.pcr, b.pcr) * (n - a.packetNumber), b.packetNumber - a.packetNumber;
    var x := Share(a, b, n);
    ShareTimes(a, b, n);
    DefinedIs(a, b, n);
    FractionBelow(x, -1, moved, span);
    FractionBelow(x, 0, moved, span);
    assert -1 * span == -span && 0 * span == 0;
    if x > -1.0 { TruncateIs(x); }
    if moved >= 0 { FloorQuotient(x, moved, span); }
  }

  lemma InterpolatedAt(s: seq<Sample>, n: nat)
    requires Inside(s, n) && InterpolationDefined(s, n) && forall x | x in s :: x.pcr.IsValid()
    ensures var k := Leading(s, n);
      && 0 < k < |s| && s[k - 1].packetNumber <= n < s[k].packetNumber
      && s[k - 1].pcr.IsValid() && s[k].pcr.IsValid()
      && BetweenDefined(s[k - 1], s[k], n) && Interpolated(s, n) == Some(Between(s[k - 1], s[k], n))
  {
    BracketFound(s, n);
    hide Leading;
    hide Pcr.IsValid;
    InterpolatedBetween(s, n);
  }

  /** Inside the samples the result is valid exactly if what the clock moves up to the packet is less
      than what is left of it at the sample before; the samples are cross-multiplied. */
  lemma InterpolationValidExactly(s: seq<Sample>, n: nat)
    requires Inside(s, n) && InterpolationDefined(s, n) && forall x | x in s :: x.pcr.IsValid()
    ensures var k := Leading(s, n);
      && 0 < k < |s| && s[k - 1].packetNumber <= n < s[k].packetNumber && Interpolated(s, n).Some?
      && (Interpolated(s, n).value.IsValid()
          <==> PcrDifference(s[k - 1].pcr, s[k].pcr) * (n - s[k - 1].packetNumber)
               < (PCR_MAX - s[k - 1].pcr.Ticks()) * (s[k].packetNumber - s[k - 1].packetNumber))
  {
    hide *;
    InterpolatedAt(s, n);
    var k := Leading(s, n);
    BetweenValidExactly(s[k - 1], s[k], n);
  }

  lemma Room(a: Sample)
    requires a.pcr.IsValid()
    ensures a.pcr.Ticks() < PCR_MAX
  {}

  lemma RoomBelow(moved: int, span: nat, room: int)
    requires span > 0 && room > 0
    ensures (if moved < 0 then 0 else moved / span) < room <==> moved < room * span
  {
    TimesMonotone(1, room, span);
    if moved >= 0 { QuotientBelow(moved, span, room); }
  }

  lemma BetweenIs(a: Sample, b: Sample, n: nat)
    requires BetweenDefined(a, b, n)
    ensures a.packetNumber <= n < b.packetNumber
    ensures Between(a, b, n) == FromTicks(a.pcr.Ticks() + Truncate(Share(a, b, n)))
  {
    hide Share;
    hide Truncate;
    hide FromTicks;
  }

  lemma BetweenValidExactly(a: Sample, b: Sample, n: nat)
    requires BetweenDefined(a, b, n) && a.pcr.IsValid()
    ensures a.packetNumber <= n < b.packetNumber
    ensures Between(a, b, n).IsValid()
      <==> PcrDifference(a.pcr, b.pcr) * (n - a.packetNumber)
           < (PCR_MAX - a.pcr.Ticks()) * (b.packetNumber - a.packetNumber)
  {
    hide *;
    BetweenIs(a, b, n);
    InterpolationInIntegers(a, b, n);
    Room(a);
    FromTicksValidExactly(a.pcr.Ticks() + Truncate(Share(a, b, n)));
    RoomBelow(PcrDifference(a.pcr, b.pcr) * (n - a.packetNumber), b.packetNumber - a.packetNumber,
              PCR_MAX - a.pcr.Ticks());
  }

  /** The clock goes forward from one sample to the other by passing its end. */
  predicate Wraps(a: Pcr, b: Pcr) {
    PcrDifference(a, b) > 0 && b.Ticks() < a.Ticks()
  }

  /** So it is valid wherever the clock does not wrap between the two samples around the packet. */
  lemma ValidUnlessWrapped(s: seq<Sample>, n: nat)
    requires Inside(s, n) && InterpolationDefined(s, n) && forall x | x in s :: x.pcr.IsValid()
    requires var k := Leading(s, n); 0 < k < |s| ==> !Wraps(s[k - 1].pcr, s[k].pcr)
    ensures Interpolated(s, n).Some? && Interpolated(s, n).value.IsValid()
  {
    hide *;
    InterpolationValidExactly(s, n);
    InterpolatedAt(s, n);
    var k := Leading(s, n);
    Unwrapped(s[k - 1], s[k], n);
  }

  lemma CrossBound(d: int, k: nat, room: int, span: nat)
    requires d < room && 0 < room && k < span
    ensures d * k < room * span
  {
    if d <= 0 {
      TimesMonotone(d, 0, k);
      TimesMonotone(1, room, span);
    } else {
      TimesMonotone(k, span, d);
      TimesMonotone(d + 1, room, span);
      assert (d + 1) * span == d * span + span && d * k == k * d && d * span == span * d;
    }
  }

  lemma MovesLessThanRoom(a: Pcr, b: Pcr)
    requires a.IsValid() && b.IsValid() && !Wraps(a, b)
    ensures PcrDifference(a, b) < PCR_MAX - a.Ticks() && a.Ticks() < PCR_MAX
  {}

  lemma Unwrapped(a: Sample, b: Sample, n: nat)
    requires a.pcr.IsValid() && b.pcr.IsValid() && !Wraps(a.pcr, b.pcr) && a.packetNumber <= n < b.packetNumber
    ensures PcrDifference(a.pcr, b.pcr) * (n - a.packetNumber)
      < (PCR_MAX - a.pcr.Ticks()) * (b.packetNumber - a.packetNumber)
  {
    hide *;
    MovesLessThanRoom(a.pcr, b.pcr);
    CrossBound(PcrDifference(a.pcr, b.pcr), n - a.packetNumber, PCR_MAX - a.pcr.Ticks(),
               b.packetNumber - a.packetNumber);
  }

  /** Across a wrap of the clock the result can be no valid PCR. */
  lemma InvalidAcrossWrap()
    ensures var s := [Sample(Pcr(0x1_FFFF_FFFF, 0), 0, 0), Sample(Pcr(600, 0), 2, 0)];
      && Increasing(s) && s[0].pcr.IsValid() && s[1].pcr.IsValid() && Wraps(s[0].pcr, s[1].pcr)
      && InterpolationDefined(s, 1) && Interpolated(s, 1).Some? && !Interpolated(s, 1).value.IsValid()
  {
    var s := [Sample(Pcr(0x1_FFFF_FFFF, 0), 0, 0), Sample(Pcr(600, 0), 2, 0)];
    assert Leading(s, 1) == 1 by { LeadingStep(s, 1, 0); }
    assert PcrDifference(s[0].pcr, s[1].pcr) == 601 * 300;
    InterpolationInIntegers(s[0], s[1], 1);
    InterpolationValidExactly(s, 1);
  }

  lemma LeadingMonotone(s: seq<Sample>, m: nat, n: nat)
    requires m <= n
    ensures Leading(s, m) <= Leading(s, n)
  {
    LeadingSpec(s, m);
    LeadingSpec(s, n);
    hide Leading;
  }

  lemma InterpolatedBetween(s: seq<Sample>, n: nat)
    requires InterpolationDefined(s, n) && 0 < Leading(s, n) < |s|
    ensures var k := Leading(s, n);
      BetweenDefined(s[k - 1], s[k], n) && Interpolated(s, n) == Some(Between(s[k - 1], s[k], n))
  {
    hide Leading;
    hide Between;
    hide BetweenDefined;
  }

  lemma ForwardPair(s: seq<Sample>, k: nat)
    requires Forward(s) && 0 < k < |s|
    ensures s[k - 1].pcr.IsValid() && s[k].pcr.IsValid() && 0 <= s[k].pcr.Ticks() - s[k - 1].pcr.Ticks() <= PCR_MAX / 2
  {}

  /** It is monotone in the packet number, within and across brackets. */
  lemma InterpolationMonotone(s: seq<Sample>, m: nat, n: nat)
    requires Forward(s) && Inside(s, m) && Inside(s, n) && m <= n
    ensures InterpolationDefined(s, m) && Interpolated(s, m).Some?
    ensures InterpolationDefined(s, n) && Interpolated(s, n).Some?
    ensures Interpolated(s, m).value.Ticks() <= Interpolated(s, n).value.Ticks()
  {
    hide *;
    InterpolationBracketed(s, m);
    InterpolationBracketed(s, n);
    BracketFound(s, m);
    BracketFound(s, n);
    LeadingMonotone(s, m, n);
    var j, k := Leading(s, m), Leading(s, n);
    if j == k {
      ForwardPair(s, k);
      InterpolatedBetween(s, m);
      InterpolatedBetween(s, n);
      BetweenMonotone(s[k - 1], s[k], m, n);
    } else {
      TicksIncrease(s, j, k - 1);
    }
  }

  // ------------------------------------------------------------------------------------------
  // Extrapolation
  // ------------------------------------------------------------------------------------------

  lemma ProductMonotone(x: real, y: real, c: real)
    requires c >= 0.0 && x <= y
    ensures x * c <= y * c
  {
    ProductSign(y - x, c);
    assert (y - x) * c == y * c - x * c;
  }

  lemma ExtrapolationGrows(interval: real, packets: nat, m: nat, n: nat)
    requires packets > 0 && interval > 0.0 && m <= n
    ensures ExtrapolationMs(interval, packets, 0) == 0.0
    ensures ExtrapolationMs(interval, packets, m) <= ExtrapolationMs(interval, packets, n)
  {
    var pace := interval / packets as real;
    QuotientSign(interval, packets as real);
    assert pace * (0 as nat) as real == 0.0;
    ProductMonotone(m as real, n as real, pace);
    assert m as real * pace == pace * m as real && n as real * pace == pace * n as real;
  }

  /** Past the last sample there is a result exactly if the last two have different packet numbers and
      the clock has gone forward between them. */
  lemma ExtrapolationExactly(a: Sample, b: Sample, n: nat)
    requires b.packetNumber <= n && a.packetNumber < b.packetNumber < 0x1_0000_0000_0000_0000
    ensures Beyond(a, b, n).Some? <==> 0 < PcrDifference(a.pcr, b.pcr)
  {
    hide PcrDifference;
    hide ExtrapolationMs;
    var d := PcrDifference(a.pcr, b.pcr);
    assert Interval(a, b) == d as real / 27000.0;
    assert U64Difference(b.packetNumber, a.packetNumber) == b.packetNumber - a.packetNumber;
  }

  function ExtraTicks(interval: real, packets: nat, distance: nat): nat
    requires packets > 0 && interval > 0.0
  {
    Truncate(ExtrapolationMs(interval, packets, distance) * 27000.0)
  }

  lemma ExtraTicksGrow(interval: real, packets: nat, m: nat, n: nat)
    requires packets > 0 && interval > 0.0 && m <= n
    ensures ExtraTicks(interval, packets, 0) == 0
    ensures ExtraTicks(interval, packets, m) <= ExtraTicks(interval, packets, n)
  {
    ExtrapolationGrows(interval, packets, m, n);
    TruncateMonotone(ExtrapolationMs(interval, packets, m) * 27000.0, ExtrapolationMs(interval, packets, n) * 27000.0);
    hide ExtrapolationMs;
  }

  lemma TicksOfTicks(v: nat)
    ensures FromTicks(v).Ticks() == v
  {}

  lemma BeyondIs(a: Sample, b: Sample, n: nat, interval: real, packets: nat)
    requires b.packetNumber <= n && interval == Interval(a, b) > 0.0
    requires packets == U64Difference(b.packetNumber, a.packetNumber) > 0
    ensures Beyond(a, b, n) == Some(FromTicks(b.pcr.Ticks() + ExtraTicks(interval, packets, n - b.packetNumber)))
  {
    hide Interval;
    hide ExtrapolationMs;
    hide FromTicks;
    hide U64Difference;
    hide Truncate;
  }

  lemma PaceDefined(a: Sample, b: Sample)
    requires a.packetNumber < b.packetNumber < 0x1_0000_0000_0000_0000 && 0 < PcrDifference(a.pcr, b.pcr)
    ensures Interval(a, b) > 0.0 && U64Difference(b.packetNumber, a.packetNumber) > 0
  {
    hide PcrDifference;
  }

  /** It starts at the last sample, and never decreases. */
  lemma ExtrapolationMonotone(a: Sample, b: Sample, m: nat, n: nat)
    requires b.packetNumber <= m <= n && a.packetNumber < b.packetNumber < 0x1_0000_0000_0000_0000
    requires 0 < PcrDifference(a.pcr, b.pcr) && b.pcr.IsValid()
    ensures Beyond(a, b, b.packetNumber) == Some(b.pcr)
    ensures Beyond(a, b, m).Some? && Beyond(a, b, n).Some?
    ensures b.pcr.Ticks() <= Beyond(a, b, m).value.Ticks() <= Beyond(a, b, n).value.Ticks()
  {
    hide *;
    PaceDefined(a, b);
    var interval, packets := Interval(a, b), U64Difference(b.packetNumber, a.packetNumber);
    BeyondIs(a, b, b.packetNumber, interval, packets);
    BeyondIs(a, b, m, interval, packets);
    BeyondIs(a, b, n, interval, packets);
    ExtraTicksGrow(interval, packets, m - b.packetNumber, n - b.packetNumber);
    TicksRoundTrip(b.pcr);
    TicksOfTicks(b.pcr.Ticks() + ExtraTicks(interval, packets, m - b.packetNumber));
    TicksOfTicks(b.pcr.Ticks() + ExtraTicks(interval, packets, n - b.packetNumber));
  }

  lemma ExtrapolationTimes(d: int, packets: nat, distance: nat)
    requires packets > 0 && d > 0
    ensures d as real / 27000.0 > 0.0
    ensures Scale(ExtrapolationMs(d as real / 27000.0, packets, distance) * 27000.0, packets as real)
      == (d * distance) as real
  {
    var interval, p, k := d as real / 27000.0, packets as real, distance as real;
    var pace := interval / p;
    assert pace * p == interval && interval * 27000.0 == d as real;
    assert pace * k * 27000.0 * p == pace * p * 27000.0 * k;
    ScaledIntegers(d, distance);
  }

  lemma ExtraTicksAre(d: int, packets: nat, distance: nat)
    requires packets > 0 && d > 0
    ensures d as real / 27000.0 > 0.0
    ensures ExtraTicks(d as real / 27000.0, packets, distance) == d * distance / packets
  {
    ExtrapolationTimes(d, packets, distance);
    FloorQuotient(ExtrapolationMs(d as real / 27000.0, packets, distance) * 27000.0, d * distance, packets);
    hide ExtrapolationMs;
  }

  lemma PaceIs(a: Sample, b: Sample)
    requires a.packetNumber < b.packetNumber < 0x1_0000_0000_0000_0000
    ensures Interval(a, b) == PcrDifference(a.pcr, b.pcr) as real / 27000.0
    ensures U64Difference(b.packetNumber, a.packetNumber) == b.packetNumber - a.packetNumber
  {
    hide PcrDifference;
  }

  lemma ExtraTicksOf(interval: real, d: int, packets: nat, distance: nat)
    requires packets > 0 && d > 0 && interval == d as real / 27000.0
    ensures interval > 0.0 && ExtraTicks(interval, packets, distance) == MovedTicks(d, distance, packets)
  {
    ExtraTicksAre(d, packets, distance);
    hide ExtraTicks;
  }

  lemma IntervalOf(a: Sample, b: Sample)
    ensures Interval(a, b) == PcrDifference(a.pcr, b.pcr) as real / 27000.0
    ensures Interval(a, b) > 0.0 <==> PcrDifference(a.pcr, b.pcr) > 0
  {
    hide PcrDifference;
  }

  lemma BeyondNone(a: Sample, b: Sample, n: nat)
    requires b.packetNumber <= n && (U64Difference(b.packetNumber, a.packetNumber) == 0 || Interval(a, b) <= 0.0)
    ensures Beyond(a, b, n) == None
  {
    hide Interval;
    hide U64Difference;
    hide ExtrapolationMs;
  }

  lemma U64Is(a: nat, b: nat)
    requires a < 0x1_0000_0000_0000_0000 && b < 0x1_0000_0000_0000_0000
    ensures U64Difference(a, b) == if b <= a then a - b else a + 18446744073709551616 - b
  {}

  function MovedTicks(d: nat, distance: nat, packets: nat): nat
    requires packets > 0
  {
    d * distance / packets
  }

  /** Extrapolation in integers, also from packet numbers that go back, whose difference wraps at 2^64. */
  lemma ExtrapolationInIntegers(a: Sample, b: Sample, n: nat)
    requires b.packetNumber <= n
    requires a.packetNumber < 0x1_0000_0000_0000_0000 && b.packetNumber < 0x1_0000_0000_0000_0000
    ensures var d, distance := PcrDifference(a.pcr, b.pcr), n - b.packetNumber;
      var packets := if a.packetNumber <= b.packetNumber then b.packetNumber - a.packetNumber
                     else b.packetNumber + 18446744073709551616 - a.packetNumber;
      Beyond(a, b, n) == if packets > 0 && d > 0 then Some(FromTicks(b.pcr.Ticks() + MovedTicks(d, distance, packets)))
                         else None
  {
    hide *;
    var d, distance := PcrDifference(a.pcr, b.pcr), n - b.packetNumber;
    var packets := U64Difference(b.packetNumber, a.packetNumber);
    U64Is(b.packetNumber, a.packetNumber);
    IntervalOf(a, b);
    if packets > 0 && d > 0 {
      BeyondIs(a, b, n, Interval(a, b), packets);
      ExtraTicksOf(Interval(a, b), d, packets, distance);
    } else {
      BeyondNone(a, b, n);
    }
  }

  /** There is no result exactly with fewer than two samples, before the first one, or past the last one
      if extrapolation yields none. */
  lemma NoResultExactly(s: seq<Sample>, n: nat)
    requires Increasing(s) && InterpolationDefined(s, n)
    ensures Interpolated(s, n) == None
      <==> |s| < 2 || n < s[0].packetNumber
           || (s[|s| - 1].packetNumber <= n && Beyond(s[|s| - 2], s[|s| - 1], n) == None)
  {
    LeadingSpec(s, n);
    if |s| >= 2 {
      LeadingAll(s, n);
      if Leading(s, n) > 0 { NumbersIncrease(s, 0, Leading(s, n) - 1); }
    }
    hide Leading;
    hide Increasing;
    hide Beyond;
    hide Between;
    hide BetweenDefined;
  }

  lemma LeadingAll(s: seq<Sample>, n: nat)
    requires Increasing(s) && s != []
    ensures Leading(s, n) == |s| <==> s[|s| - 1].packetNumber <= n
    ensures Leading(s, n) == 0 <==> n < s[0].packetNumber
  {
    LeadingSpec(s, n);
    var k := Leading(s, n);
    if k < |s| { NumbersIncrease(s, k, |s| - 1); }
    hide Leading;
    hide Increasing;
  }

  /** Extrapolation is valid exactly if what the clock moves from the last sample to the packet is less
      than what is left of it there. */
  lemma ExtrapolationValidExactly(a: Sample, b: Sample, n: nat)
    requires b.packetNumber <= n && a.packetNumber < b.packetNumber < 0x1_0000_0000_0000_0000
    requires 0 < PcrDifference(a.pcr, b.pcr) && b.pcr.IsValid()
    ensures Beyond(a, b, n).Some?
    ensures Beyond(a, b, n).value.IsValid()
      <==> PcrDifference(a.pcr, b.pcr) * (n - b.packetNumber)
           < (PCR_MAX - b.pcr.Ticks()) * (b.packetNumber - a.packetNumber)
  {
    hide *;
    var d, packets, distance := PcrDifference(a.pcr, b.pcr), b.packetNumber - a.packetNumber, n - b.packetNumber;
    PaceDefined(a, b);
    PaceIs(a, b);
    BeyondIs(a, b, n, Interval(a, b), packets);
    ExtraTicksAre(d, packets, distance);
    FromTicksValidExactly(b.pcr.Ticks() + ExtraTicks(Interval(a, b), packets, distance));
    QuotientBelow(d * distance, packets, PCR_MAX - b.pcr.Ticks());
  }

  // ------------------------------------------------------------------------------------------
  // The object
  // ------------------------------------------------------------------------------------------

  class PCRTracker {
    var samples: seq<Sample>
    var averageIntervalMs: real
    var maxJitterMs: real
    var discontinuityDetected: bool

    constructor ()
      ensures View() == EMPTY_TRACKER
    {
      samples, averageIntervalMs, maxJitterMs, discontinuityDetected := [], 0.0, 0.0, false;
    }

    ghost function View(): TrackerState
      reads this
    {
      TrackerState(samples, averageIntervalMs, maxJitterMs, discontinuityDetected)
    }

    method AddPCR(pcr: Pcr, packetNumber: nat, cc: nat)
      requires |samples| <= MAX_SAMPLES
      modifies this
      ensures View() == Tracked(old(View()), Sample(pcr, packetNumber, cc))
      ensures |samples| <= MAX_SAMPLES
    {
      hide Average;
      hide PcrDifferenceMs;
      var sample := Sample(pcr, packetNumber, cc);
      if |samples| > 0 {
        var last := samples[|samples| - 1];
        var interval := Interval(last, sample);
        if interval < 0.0 || interval > 100.0 {
          discontinuityDetected := true;
        }
        if interval > 0.0 && interval < 100.0 {
          var jitter := if interval - 40.0 < 0.0 then -(interval - 40.0) else interval - 40.0;
          maxJitterMs := if jitter > maxJitterMs then jitter else maxJitterMs;
        }
      }
      samples := samples + [sample];
      if |samples| > MAX_SAMPLES {
        samples := samples[1..];
      }
      UpdateStatistics();
    }

    method UpdateStatistics()
      modifies this`averageIntervalMs
      ensures averageIntervalMs == Average(samples, old(averageIntervalMs))
    {
      hide *;
      if |samples| < 2 {
        AverageOfFew(samples, averageIntervalMs);
        return;
      }
      var sampleCount := if |samples| < 100 then |samples| else 100;
      var totalInterval := 0.0;
      var validIntervals := 0;
      var start := |samples| - sampleCount;
      OneSample(samples[start..start + 1]);
      for i := start to |samples| - 1
        invariant totalInterval == UsableSum(samples[start..i + 1])
        invariant validIntervals == UsableCount(samples[start..i + 1])
        invariant averageIntervalMs == old(averageIntervalMs)
      {
        var interval := Interval(samples[i], samples[i + 1]);
        NextSample(samples, start, i);
        if interval > 0.0 && interval < 100.0 {
          totalInterval := totalInterval + interval;
          validIntervals := validIntervals + 1;
        }
      }
      assert samples[start..|samples| - 1 + 1] == samples[start..];
      AverageIs(samples, averageIntervalMs, start, totalInterval, validIntervals);
      if validIntervals > 0 {
        averageIntervalMs := totalInterval / validIntervals as real;
      }
    }

    method Clear()
      modifies this
      ensures View() == EMPTY_TRACKER
    {
      samples, averageIntervalMs, maxJitterMs, discontinuityDetected := [], 0.0, 0.0, false;
    }

    /** The PCR at a packet number, from the samples around it or, past the last one, from the last
        two. Unsigned differences wrap at 2^64; converting a real to unsigned must not be undefined. */
    method InterpolatePCR(packetNumber: nat) returns (result: Option<Pcr>)
      requires InterpolationDefined(samples, packetNumber)
      ensures result == Interpolated(samples, packetNumber)
    {
      hide Interval;
      hide PcrDifference;
      hide Between;
      hide Beyond;
      if |samples| < 2 {
        return None;
      }
      var before: Option<nat> := None;
      var after: Option<nat> := None;
      var i := 0;
      while i < |samples|
        invariant 0 <= i <= |samples| && after == None
        invariant i <= Leading(samples, packetNumber)
        invariant before == if i == 0 then None else Some(i - 1)
      {
        LeadingStep(samples, packetNumber, i);
        if samples[i].packetNumber <= packetNumber {
          before := Some(i);
        } else {
          after := Some(i);
          break;
        }
        i := i + 1;
      }
      if before.Some? && after.Some? {
        return Some(Between(samples[before.value], samples[after.value], packetNumber));
      }
      if before.Some? {
        var index := before.value;
        if index > 0 {
          return Beyond(samples[index - 1], samples[index], packetNumber);
        }
      }
      return None;
    }
  }

  // ------------------------------------------------------------------------------------------
  // The tracker is a function of its whole history
  // ------------------------------------------------------------------------------------------

  /** The tracker after a history of samples. */
  function TrackAll(history: seq<Sample>): TrackerState {
    if history == [] then EMPTY_TRACKER else
    Tracked(TrackAll(history[..|history| - 1]), history[|history| - 1])
  }

  predicate SomeJump(h: seq<Sample>) {
    exists i | 0 < i < |h| :: Jumps(Gap(h, i))
  }

  /** The interval that ends at sample i. */
  function Gap(h: seq<Sample>, i: nat): real
    requires 0 < i < |h|
  {
    Interval(h[i - 1], h[i])
  }

  lemma GapSnoc(h: seq<Sample>)
    requires h != []
    ensures var init := h[..|h| - 1];
      && (forall i | 0 < i < |init| :: Gap(h, i) == Gap(init, i))
      && (init != [] ==> Gap(h, |h| - 1) == Interval(init[|init| - 1], h[|h| - 1]))
  {
    hide Interval;
  }

  /** j is the largest jitter of the usable intervals of the history, 0 if there is none. */
  predicate IsMaxJitter(h: seq<Sample>, j: real) {
    && (forall i | 0 < i < |h| && Usable(Gap(h, i)) :: Jitter(Gap(h, i)) <= j)
    && (j == 0.0 || exists i | 0 < i < |h| :: Usable(Gap(h, i)) && j == Jitter(Gap(h, i)))
  }

  lemma LastSnoc<T>(s: seq<T>, x: T, n: nat)
    requires n > 0
    ensures Last(Last(s, n) + [x], n) == Last(s + [x], n)
    ensures s != [] ==> Last(s, n) != [] && Last(s, n)[|Last(s, n)| - 1] == s[|s| - 1]
  {}

  lemma WindowOfLast(h: seq<Sample>)
    ensures TrackAll([]).samples == []
    ensures h != [] ==>
      TrackAll(h).samples == Last(TrackAll(h[..|h| - 1]).samples + [h[|h| - 1]], MAX_SAMPLES)
  {
    hide Average;
    hide Interval;
    hide Last;
    hide Usable;
    hide Jumps;
    hide Jitter;
  }

  lemma LastThousand(h: seq<Sample>)
    ensures Last(h, MAX_SAMPLES) == if |h| <= 1000 then h else h[|h| - 1000..]
    ensures Last<Sample>([], MAX_SAMPLES) == [] && MAX_SAMPLES > 0
  {}

  lemma SplitLast(h: seq<Sample>)
    requires h != []
    ensures h[..|h| - 1] + [h[|h| - 1]] == h
  {}

  /** The window is the most recent 1000 samples. */
  lemma {:induction false} WindowIsRecent(h: seq<Sample>)
    ensures TrackAll(h).samples == Last(h, MAX_SAMPLES)
    ensures TrackAll(h).samples == if |h| <= 1000 then h else h[|h| - 1000..]
  {
    hide *;
    WindowOfLast(h);
    LastThousand(h);
    if h != [] {
      var init := h[..|h| - 1];
      WindowIsRecent(init);
      LastSnoc(init, h[|h| - 1], MAX_SAMPLES);
      SplitLast(h);
    }
  }

  /** How the flag and the jitter change with the last sample of a history. */
  lemma TrackedLast(h: seq<Sample>)
    requires h != []
    ensures var init, x := h[..|h| - 1], h[|h| - 1];
      var was, now := TrackAll(init), TrackAll(h);
      if init == [] then now.discontinuity == was.discontinuity && now.maxJitterMs == was.maxJitterMs
      else var iv := Interval(init[|init| - 1], x);
        && now.discontinuity == (was.discontinuity || Jumps(iv))
        && now.maxJitterMs == (if Usable(iv) && Jitter(iv) > was.maxJitterMs then Jitter(iv) else was.maxJitterMs)
  {
    hide Average;
    hide Interval;
    hide Jitter;
    hide Usable;
    hide Jumps;
    var init, x := h[..|h| - 1], h[|h| - 1];
    WindowIsRecent(init);
    LastSnoc(init, x, MAX_SAMPLES);
  }

  /** The flag tells whether any neighbours in the whole history step backwards or by more than
      100 ms, even if they have left the window. */
  lemma {:induction false} DiscontinuityIsHistoric(h: seq<Sample>)
    ensures TrackAll(h).discontinuity <==> SomeJump(h)
  {
    if h != [] {
      TrackedLast(h);
      hide TrackAll;
      hide Tracked;
      hide Jumps;
      hide Gap;
      hide Interval;
      DiscontinuityIsHistoric(h[..|h| - 1]);
      GapSnoc(h);
      SomeJumpSnoc(h);
      hide SomeJump;
    }
  }

  lemma SomeJumpSnoc(h: seq<Sample>)
    requires h != []
    ensures SomeJump(h) <==> SomeJump(h[..|h| - 1]) || (|h| > 1 && Jumps(Gap(h, |h| - 1)))
  {
    hide Gap;
    hide Jumps;
    GapSnoc(h);
    var init := h[..|h| - 1];
    if SomeJump(init) {
      var i :| 0 < i < |init| && Jumps(Gap(init, i));
      assert Jumps(Gap(h, i));
    }
  }

  /** The reported jitter is the maximum over the whole history, and stays below 60 ms. */
  lemma {:induction false} JitterIsHistoric(h: seq<Sample>)
    ensures IsMaxJitter(h, TrackAll(h).maxJitterMs)
    ensures 0.0 <= TrackAll(h).maxJitterMs < 60.0
  {
    if h != [] {
      TrackedLast(h);
      hide TrackAll;
      hide Tracked;
      hide Gap;
      hide Interval;
      JitterIsHistoric(h[..|h| - 1]);
      GapSnoc(h);
      MaxJitterSnoc(h, TrackAll(h[..|h| - 1]).maxJitterMs);
    }
  }

  lemma MaxJitterSnoc(h: seq<Sample>, j: real)
    requires h != [] && IsMaxJitter(h[..|h| - 1], j) && j >= 0.0
    ensures IsMaxJitter(h, if |h| == 1 then j else
      var iv := Gap(h, |h| - 1); if Usable(iv) && Jitter(iv) > j then Jitter(iv) else j)
  {
    hide Gap;
    hide Jitter;
    hide Usable;
    GapSnoc(h);
    var init := h[..|h| - 1];
    var iv := if |h| == 1 then 0.0 else Gap(h, |h| - 1);
    if j != 0.0 && !(|h| > 1 && Usable(iv) && Jitter(iv) > j) {
      var i :| 0 < i < |init| && Usable(Gap(init, i)) && j == Jitter(Gap(init, i));
      assert Gap(h, i) == Gap(init, i);
    }
  }

  lemma {:induction false} UsableBounds(s: seq<Sample>)
    ensures UsableCount(s) == 0 ==> UsableSum(s) == 0.0
    ensures UsableCount(s) > 0 ==> 0.0 < UsableSum(s) < 100.0 * UsableCount(s) as real
  {
    hide Interval;
    if |s| >= 2 { UsableBounds(s[..|s| - 1]); }
  }

  lemma Mean(total: real, count: real)
    requires count > 0.0 && 0.0 < total < 100.0 * count
    ensures 0.0 < total / count < 100.0
  {
    var mean := total / count;
    assert mean * count == total;
    assert (mean - 100.0) * count == mean * count - 100.0 * count;
    ProductSign(mean - 100.0, count);
    ProductSign(mean, count);
  }

  /** The average is 0 until there is a usable interval, and then strictly between 0 and 100 ms. */
  lemma {:induction false} AverageInRange(h: seq<Sample>)
    ensures var a := TrackAll(h).averageIntervalMs; a == 0.0 || 0.0 < a < 100.0
  {
    hide Interval;
    if h != [] {
      AverageInRange(h[..|h| - 1]);
      var recent := Last(TrackAll(h).samples, RECENT_SAMPLES);
      UsableBounds(recent);
      if UsableCount(recent) > 0 { Mean(UsableSum(recent), UsableCount(recent) as real); }
    }
  }

  // The same in ticks of the clock.

  function Ticks(h: seq<Sample>, i: nat): int
    requires 0 < i < |h|
  {
    PcrDifference(h[i - 1].pcr, h[i].pcr)
  }

  /** 100 ms are 2700000 ticks, 40 ms are 1080000. */
  lemma IntervalInTicks(a: Sample, b: Sample)
    ensures var d, iv := PcrDifference(a.pcr, b.pcr), Interval(a, b);
      && (Jumps(iv) <==> d < 0 || d > 2700000) && (Usable(iv) <==> 0 < d < 2700000)
      && iv * 27000.0 == d as real
      && Jitter(iv) * 27000.0 == (if d >= 1080000 then d - 1080000 else 1080000 - d) as real
  {
    hide PcrDifference;
  }

  lemma GapInTicks(h: seq<Sample>, i: nat)
    requires 0 < i < |h|
    ensures var d, iv := Ticks(h, i), Gap(h, i);
      && (Jumps(iv) <==> d < 0 || d > 2700000) && (Usable(iv) <==> 0 < d < 2700000)
      && iv * 27000.0 == d as real
      && Jitter(iv) * 27000.0 == (if d >= 1080000 then d - 1080000 else 1080000 - d) as real
  {
    hide PcrDifference;
    hide Interval;
    hide Jumps;
    hide Usable;
    hide Jitter;
    IntervalInTicks(h[i - 1], h[i]);
  }

  /** The flag tells whether any neighbours in the whole history step backwards or by more than 2700000
      ticks, even if they have left the window. */
  lemma DiscontinuityInTicks(h: seq<Sample>)
    ensures TrackAll(h).discontinuity <==> exists i | 0 < i < |h| :: Ticks(h, i) < 0 || Ticks(h, i) > 2700000
  {
    DiscontinuityIsHistoric(h);
    forall i | 0 < i < |h| ensures Jumps(Gap(h, i)) <==> Ticks(h, i) < 0 || Ticks(h, i) > 2700000 { GapInTicks(h, i); }
    hide TrackAll;
    hide Gap;
    hide Ticks;
    hide Jumps;
  }

  /** The distance of an interval from 40 ms. */
  function Distance(d: int): nat {
    if d >= 1080000 then d - 1080000 else 1080000 - d
  }

  /** The jitter is, in ticks, the largest distance from 1080000 of the differences of the whole history
      strictly between 0 and 2700000, or 0 if there is none. */
  lemma JitterInTicks(h: seq<Sample>) returns (j: nat)
    ensures TrackAll(h).maxJitterMs * 27000.0 == j as real
    ensures forall i | 0 < i < |h| && 0 < Ticks(h, i) < 2700000 :: Distance(Ticks(h, i)) <= j
    ensures j == 0 || exists i | 0 < i < |h| :: 0 < Ticks(h, i) < 2700000 && j == Distance(Ticks(h, i))
  {
    JitterIsHistoric(h);
    var max := TrackAll(h).maxJitterMs;
    hide TrackAll;
    hide Gap;
    hide Ticks;
    hide Usable;
    hide Jitter;
    forall i | 0 < i < |h|
      ensures Usable(Gap(h, i)) <==> 0 < Ticks(h, i) < 2700000
      ensures Jitter(Gap(h, i)) * 27000.0 == Distance(Ticks(h, i)) as real
    {
      GapInTicks(h, i);
    }
    j := 0;
    if max != 0.0 {
      var i :| 0 < i < |h| && Usable(Gap(h, i)) && max == Jitter(Gap(h, i));
      j := Distance(Ticks(h, i));
    }
    hide Distance;
  }

  /** The number and the sum of the differences strictly between 0 and 2700000 ticks. */
  function CountInTicks(s: seq<Sample>): nat {
    if |s| < 2 then 0 else
    var d := PcrDifference(s[|s| - 2].pcr, s[|s| - 1].pcr);
    CountInTicks(s[..|s| - 1]) + if 0 < d < 2700000 then 1 else 0
  }

  function SumInTicks(s: seq<Sample>): nat {
    if |s| < 2 then 0 else
    var d := PcrDifference(s[|s| - 2].pcr, s[|s| - 1].pcr);
    SumInTicks(s[..|s| - 1]) + if 0 < d < 2700000 then d else 0
  }

  lemma {:induction false} SumsInTicks(s: seq<Sample>)
    ensures UsableCount(s) == CountInTicks(s) && UsableSum(s) * 27000.0 == SumInTicks(s) as real
    decreases |s|
  {
    hide PcrDifference;
    hide Interval;
    hide Usable;
    if |s| >= 2 {
      SumsInTicks(s[..|s| - 1]);
      IntervalInTicks(s[|s| - 2], s[|s| - 1]);
    }
  }

  lemma LastTracked(h: seq<Sample>)
    requires h != []
    ensures TrackAll(h).averageIntervalMs == Average(Last(h, MAX_SAMPLES), TrackAll(h[..|h| - 1]).averageIntervalMs)
  {
    WindowIsRecent(h);
    hide Average;
    hide Interval;
    hide Last;
  }

  lemma MeanTimes(total: real, count: nat)
    requires count > 0
    ensures Scale(total / count as real, (27000 * count) as real) == Scale(total, 27000.0)
  {
    var mean, c := total / count as real, count as real;
    assert mean * c == total;
    assert (27000 * count) as real == 27000.0 * c;
    assert mean * (27000.0 * c) == mean * c * 27000.0;
  }

  lemma RecentAverage(samples: seq<Sample>, former: real)
    ensures var recent := Last(samples, RECENT_SAMPLES); var n := CountInTicks(recent);
      && (n > 0 ==> Scale(Average(samples, former), (27000 * n) as real) == SumInTicks(recent) as real)
      && (n == 0 ==> Average(samples, former) == former)
  {
    var recent := Last(samples, RECENT_SAMPLES);
    SumsInTicks(recent);
    hide CountInTicks;
    hide SumInTicks;
    hide UsableCount;
    hide UsableSum;
    hide Last;
    if UsableCount(recent) > 0 { MeanTimes(UsableSum(recent), UsableCount(recent)); }
  }

  lemma RecentOf(h: seq<Sample>)
    ensures Last(Last(h, MAX_SAMPLES), RECENT_SAMPLES) == if |h| <= 100 then h else h[|h| - 100..]
  {}

  lemma NewAverage()
    ensures TrackAll([]).averageIntervalMs == 0.0
  {}

  /** The average after a sample: the mean, in ticks, of the differences strictly between 0 and 2700000
      among the last 100 samples, or what it was if there is none; 0 at first. */
  lemma AverageInTicks(h: seq<Sample>)
    ensures h == [] ==> TrackAll(h).averageIntervalMs == 0.0
    ensures h != [] ==>
      var recent := if |h| <= 100 then h else h[|h| - 100..];
      var n := CountInTicks(recent);
      && (n > 0 ==> Scale(TrackAll(h).averageIntervalMs, (27000 * n) as real) == SumInTicks(recent) as real)
      && (n == 0 ==> TrackAll(h).averageIntervalMs == TrackAll(h[..|h| - 1]).averageIntervalMs)
  {
    hide *;
    NewAverage();
    if h != [] {
      LastTracked(h);
      RecentOf(h);
      RecentAverage(Last(h, MAX_SAMPLES), TrackAll(h[..|h| - 1]).averageIntervalMs);
    }
  }

  /** The index of the last prefix of the history whose recent samples contain a usable interval. */
  function LastInformative(h: seq<Sample>): nat {
    if UsableCount(Last(h, RECENT_SAMPLES)) > 0 || h == [] then |h| else LastInformative(h[..|h| - 1])
  }

  lemma {:induction false} LastInformativeBound(h: seq<Sample>)
    ensures LastInformative(h) <= |h|
    ensures forall k | LastInformative(h) < k <= |h| :: UsableCount(Last(h[..k], RECENT_SAMPLES)) == 0
  {
    hide UsableCount;
    if UsableCount(Last(h, RECENT_SAMPLES)) > 0 || h == [] {
    } else {
      var init := h[..|h| - 1];
      LastInformativeBound(init);
      forall k | LastInformative(h) < k <= |h|
        ensures UsableCount(Last(h[..k], RECENT_SAMPLES)) == 0
      {
        if k == |h| { assert h[..k] == h; } else { assert h[..k] == init[..k]; }
      }
    }
  }

  /** The average is the mean of the usable intervals among the last 100 samples at the most recent
      moment when there were any. */
  lemma {:induction false} AverageIsHistoric(h: seq<Sample>)
    ensures LastInformative(h) <= |h|
    ensures TrackAll(h).averageIntervalMs == Average(h[..LastInformative(h)], 0.0)
  {
    hide UsableCount;
    hide UsableSum;
    hide Interval;
    if h == [] {
      NoneUsable();
      assert h[..0] == [];
    } else {
      var init := h[..|h| - 1];
      WindowIsRecent(h);
      LastOfLast(h, RECENT_SAMPLES, MAX_SAMPLES);
      if UsableCount(Last(h, RECENT_SAMPLES)) > 0 {
        assert h[..|h|] == h;
      } else {
        AverageIsHistoric(init);
        assert h[..LastInformative(h)] == init[..LastInformative(h)];
      }
    }
  }

  lemma NoneUsable()
    ensures UsableCount(Last([], RECENT_SAMPLES)) == 0
  {}

  lemma LastOfLast<T>(s: seq<T>, m: nat, n: nat)
    requires m <= n
    ensures Last(Last(s, n), m) == Last(s, m)
  {}
}
