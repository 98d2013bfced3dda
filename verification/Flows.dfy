/** The statistics that the threshold application keeps for each flow, against its history. */
module Flows {
  import opened Options
  import opened OnlineStatistics

  datatype SubType = Ipfix | Prefix | Interfix

  datatype Counter = Octets | Packets

  datatype Record = Record(end: real, octets: nat, packets: nat, subType: SubType) {
    function Reading(which: Counter): real {
      if which.Octets? then octets as real else packets as real
    }
  }

  /** What a flow is created with: its start time and the octets of its first record. */
  datatype Origin = Origin(start: real, octets: nat)

  function Abs(x: real): real {
    if x < 0.0 then -x else x
  }

  function Ratio(a: real, b: real): real
    requires b != 0.0
  {
    a / b
  }

  // ----- What the history says, record by record -----

  /** The octets that the next record has to exceed: zero after an `ipfix` record. */
  function Baseline(o: Origin, h: seq<Record>): nat {
    if h == [] then o.octets
    else if h[|h| - 1].subType.Ipfix? then 0
    else h[|h| - 1].octets
  }

  /** Only a record with more octets than the baseline counts as news. */
  predicate Counts(o: Origin, h: seq<Record>, r: Record) {
    r.octets > Baseline(o, h)
  }

  /** The time from which the next gap is measured, once there is one. */
  function Reference(o: Origin, h: seq<Record>): Option<real> {
    if h == [] then None
    else
      var earlier, r := h[..|h| - 1], h[|h| - 1];
      if Counts(o, earlier, r) || r.subType.Ipfix? then Some(r.end) else Reference(o, earlier)
  }

  function Gap(o: Origin, h: seq<Record>, r: Record): real {
    r.end - if Reference(o, h).Some? then Reference(o, h).value else o.start
  }

  function Gaps(o: Origin, h: seq<Record>): seq<real> {
    if h == [] then []
    else
      var earlier, r := h[..|h| - 1], h[|h| - 1];
      if Counts(o, earlier, r) then Gaps(o, earlier) + [Gap(o, earlier, r)] else Gaps(o, earlier)
  }

  /** The running difference of a counter within a session: against the last difference. */
  function Difference(o: Origin, h: seq<Record>, which: Counter): real {
    if h == [] then 0.0
    else
      var earlier, r := h[..|h| - 1], h[|h| - 1];
      if r.subType.Ipfix? then 0.0
      else if Counts(o, earlier, r) then Abs(r.Reading(which) - Difference(o, earlier, which))
      else Difference(o, earlier, which)
  }

  /** The rate that a record contributes; none if no time has passed. */
  function RateOf(o: Origin, h: seq<Record>, r: Record, which: Counter): seq<real> {
    if Counts(o, h, r) && Gap(o, h, r) != 0.0 then
      [Ratio(Abs(r.Reading(which) - Difference(o, h, which)), Gap(o, h, r))]
    else []
  }

  function Rates(o: Origin, h: seq<Record>, which: Counter): seq<real> {
    if h == [] then []
    else Rates(o, h[..|h| - 1], which) + RateOf(o, h[..|h| - 1], h[|h| - 1], which)
  }

  /** The samples the running mean stands for: a record without a rate repeats the mean. */
  function Padded(o: Origin, h: seq<Record>, which: Counter): seq<real> {
    if h == [] then []
    else
      var earlier, r := h[..|h| - 1], h[|h| - 1];
      var before := Padded(o, earlier, which);
      if !Counts(o, earlier, r) then before
      else if Gap(o, earlier, r) == 0.0 then before + [RunningMean(before)]
      else before + RateOf(o, earlier, r, which)
  }

  /** An `ipfix` record closes a session; the idle gap lasts until the next counted record. */
  predicate Pending(o: Origin, h: seq<Record>)
    ensures Pending(o, h) ==> IpfixCount(h) > 0 && LastIpfix(h).Some?
  {
    if h == [] then false
    else if h[|h| - 1].subType.Ipfix? then true
    else Pending(o, h[..|h| - 1]) && !Counts(o, h[..|h| - 1], h[|h| - 1])
  }

  function LastIpfix(h: seq<Record>): Option<real> {
    if h == [] then None
    else if h[|h| - 1].subType.Ipfix? then Some(h[|h| - 1].end)
    else LastIpfix(h[..|h| - 1])
  }

  function IpfixCount(h: seq<Record>): nat {
    if h == [] then 0
    else IpfixCount(h[..|h| - 1]) + if h[|h| - 1].subType.Ipfix? then 1 else 0
  }

  predicate EndsIdle(o: Origin, h: seq<Record>, r: Record) {
    Pending(o, h) && Counts(o, h, r)
  }

  function IdleGaps(o: Origin, h: seq<Record>): seq<real> {
    if h == [] then []
    else
      var earlier, r := h[..|h| - 1], h[|h| - 1];
      if EndsIdle(o, earlier, r) then IdleGaps(o, earlier) + [r.end - LastIpfix(earlier).value]
      else IdleGaps(o, earlier)
  }

  /** What the flow accumulates for them, with the number of `ipfix` records as sample count. */
  function IdleFold(o: Origin, h: seq<Record>): Welford {
    if h == [] then Welford(0.0, 0.0)
    else
      var earlier, r := h[..|h| - 1], h[|h| - 1];
      if EndsIdle(o, earlier, r) then
        WelfordStep(IdleFold(o, earlier), IpfixCount(earlier), r.end - LastIpfix(earlier).value)
      else IdleFold(o, earlier)
  }

  function IdleDeviation(o: Origin, h: seq<Record>): real {
    if h == [] then 0.0
    else
      var earlier, r := h[..|h| - 1], h[|h| - 1];
      if EndsIdle(o, earlier, r) && IpfixCount(earlier) > 2 then
        Ratio(IdleFold(o, h).m2, (IpfixCount(earlier) - 1) as real)
      else IdleDeviation(o, earlier)
  }

  /** How often an `ipfix` record found an idle gap still pending and did not end it. */
  function Lost(o: Origin, h: seq<Record>): nat {
    if h == [] then 0
    else
      var earlier, r := h[..|h| - 1], h[|h| - 1];
      Lost(o, earlier) + if r.subType.Ipfix? && Pending(o, earlier) && !Counts(o, earlier, r) then 1 else 0
  }

  // ----- One more record -----

  lemma IdleAppends(o: Origin, h: seq<Record>, r: Record)
    ensures Pending(o, h + [r]) == (r.subType.Ipfix? || (Pending(o, h) && !Counts(o, h, r)))
    ensures LastIpfix(h + [r]) == if r.subType.Ipfix? then Some(r.end) else LastIpfix(h)
    ensures IpfixCount(h + [r]) == IpfixCount(h) + if r.subType.Ipfix? then 1 else 0
    ensures IdleGaps(o, h + [r]) == if EndsIdle(o, h, r) then IdleGaps(o, h) + [r.end - LastIpfix(h).value]
                                    else IdleGaps(o, h)
    ensures IdleFold(o, h + [r]) == if EndsIdle(o, h, r)
                                    then WelfordStep(IdleFold(o, h), IpfixCount(h), r.end - LastIpfix(h).value)
                                    else IdleFold(o, h)
    ensures IdleDeviation(o, h + [r]) == if EndsIdle(o, h, r) && IpfixCount(h) > 2
                                         then Ratio(IdleFold(o, h + [r]).m2, (IpfixCount(h) - 1) as real)
                                         else IdleDeviation(o, h)
    ensures Lost(o, h + [r]) == Lost(o, h) + if r.subType.Ipfix? && Pending(o, h) && !Counts(o, h, r) then 1 else 0
  {
    hide Ratio, WelfordStep;
    assert (h + [r])[..|h|] == h;
  }

  lemma GapsAppend(o: Origin, h: seq<Record>, r: Record)
    ensures Baseline(o, h + [r]) == if r.subType.Ipfix? then 0 else r.octets
    ensures Reference(o, h + [r]) == if Counts(o, h, r) || r.subType.Ipfix? then Some(r.end) else Reference(o, h)
    ensures Gaps(o, h + [r]) == if Counts(o, h, r) then Gaps(o, h) + [Gap(o, h, r)] else Gaps(o, h)
  {
    assert (h + [r])[..|h|] == h;
  }

  lemma RatesAppend(o: Origin, h: seq<Record>, r: Record, which: Counter)
    ensures Difference(o, h + [r], which)
         == if r.subType.Ipfix? then 0.0
            else if Counts(o, h, r) then Abs(r.Reading(which) - Difference(o, h, which))
            else Difference(o, h, which)
    ensures Rates(o, h + [r], which) == Rates(o, h, which) + RateOf(o, h, r, which)
    ensures Padded(o, h + [r], which)
         == if !Counts(o, h, r) then Padded(o, h, which)
            else if Gap(o, h, r) == 0.0 then Padded(o, h, which) + [RunningMean(Padded(o, h, which))]
            else Padded(o, h, which) + RateOf(o, h, r, which)
  {
    hide Ratio, RunningMean;
    assert (h + [r])[..|h|] == h;
  }

  // ----- Theorems about histories -----

  /** The flow counts all gaps, but it records a rate only for those that are not zero. */
  lemma {:induction false} RatesLagByZeroGaps(o: Origin, h: seq<Record>, which: Counter)
    ensures |Rates(o, h, which)| <= |Gaps(o, h)|
    ensures |Rates(o, h, which)| == |Gaps(o, h)| <==> forall g | g in Gaps(o, h) :: g != 0.0
    ensures (forall g | g in Gaps(o, h) :: g != 0.0) ==> Padded(o, h, which) == Rates(o, h, which)
  {
    if h != [] {
      var earlier, r := h[..|h| - 1], h[|h| - 1];
      hide Ratio, RunningMean;
      RatesLagByZeroGaps(o, earlier, which);
      assert Rates(o, earlier, which) + [] == Rates(o, earlier, which);
      if Counts(o, earlier, r) {
        assert Gap(o, earlier, r) in Gaps(o, h);
        assert forall g :: g in Gaps(o, h) <==> g in Gaps(o, earlier) || g == Gap(o, earlier, r);
      }
    }
  }

  /** While an idle gap is pending the baseline is zero: only a record without octets leaves it so. */
  lemma {:induction false} PendingBaselineIsZero(o: Origin, h: seq<Record>)
    ensures Pending(o, h) ==> Baseline(o, h) == 0
  {
    if h != [] {
      PendingBaselineIsZero(o, h[..|h| - 1]);
    }
  }

  /** An `ipfix` record is lost exactly if it carries no octets and finds an idle gap pending. */
  lemma LostIffWithoutOctets(o: Origin, h: seq<Record>, r: Record)
    ensures Lost(o, h + [r]) == Lost(o, h) + 1 <==> r.subType.Ipfix? && Pending(o, h) && r.octets == 0
    ensures Lost(o, h + [r]) == Lost(o, h) || Lost(o, h + [r]) == Lost(o, h) + 1
  {
    assert (h + [r])[..|h|] == h;
    PendingBaselineIsZero(o, h);
  }

  /** The i-th record ends a session without octets while the gap after the last one is pending. */
  predicate LosesAt(o: Origin, h: seq<Record>, i: nat)
    requires i < |h|
  {
    h[i].subType.Ipfix? && Pending(o, h[..i]) && h[i].octets == 0
  }

  /** Over runs: no record is lost if and only if none of them is like that. */
  lemma {:induction false} NothingLostIff(o: Origin, h: seq<Record>)
    ensures Lost(o, h) == 0 <==> forall i | 0 <= i < |h| :: !LosesAt(o, h, i)
  {
    if h != [] {
      var n := |h| - 1;
      hide Lost, Pending;
      NothingLostIff(o, h[..n]);
      LostIffWithoutOctets(o, h[..n], h[n]);
      assert h == h[..n] + [h[n]];
      forall i | 0 <= i < n ensures LosesAt(o, h[..n], i) == LosesAt(o, h, i) {
        assert h[..n][..i] == h[..i];
      }
      assert (forall i | 0 <= i < |h| :: !LosesAt(o, h, i)) <==>
               (forall i | 0 <= i < n :: !LosesAt(o, h[..n], i)) && !LosesAt(o, h, n);
    } else {
      assert Lost(o, h) == 0;
    }
  }

  /** A record at the very start of the flow has no gap: it is counted, and has no rate. */
  lemma ZeroGapHasNoRate(start: real, packets: nat)
    ensures var o, h := Origin(start, 5), [Record(start, 6, packets, Prefix)];
            Gaps(o, h) == [0.0] && Rates(o, h, Octets) == []
  {
    var r := Record(start, 6, packets, Prefix);
    assert [r][..0] == [];
    assert Gaps(Origin(start, 5), []) == [] && Rates(Origin(start, 5), [], Octets) == [];
  }

  /** The sample count is right exactly as long as no record has been lost. */
  lemma {:induction false} IdleCount(o: Origin, h: seq<Record>)
    ensures IpfixCount(h) == |IdleGaps(o, h)| + (if Pending(o, h) then 1 else 0) + Lost(o, h)
  {
    if h != [] {
      IdleCount(o, h[..|h| - 1]);
    }
  }

  /** Without lost records the accumulated idle statistics are Welford's on the idle gaps. */
  lemma {:induction false} IdleFoldIsWelford(o: Origin, h: seq<Record>)
    requires Lost(o, h) == 0
    ensures IdleFold(o, h) == WelfordFold(IdleGaps(o, h))
    ensures IdleDeviation(o, h)
         == if |IdleGaps(o, h)| > 2 then Ratio(IdleFold(o, h).m2, (|IdleGaps(o, h)| - 1) as real) else 0.0
  {
    if h != [] {
      var earlier, r := h[..|h| - 1], h[|h| - 1];
      hide WelfordStep, Ratio;
      IdleFoldIsWelford(o, earlier);
      IdleCount(o, earlier);
      if EndsIdle(o, earlier, r) {
        WelfordAppends(IdleGaps(o, earlier), r.end - LastIpfix(earlier).value);
      }
    }
  }

  lemma HalfOfTwo()
    ensures WelfordStep(Welford(0.0, 0.0), 2, 2.0).mean == 1.0
  {
  }

  /**
   * A lost record spoils the mean: sessions end at 1 and again, without octets, at 2; the next
   * news at 4 makes an idle gap of 2, and the mean of this one gap comes out as 1.
   */
  lemma LostRecordSpoilsTheMean()
    ensures var o := Origin(0.0, 5);
            var h := [Record(1.0, 5, 1, Ipfix), Record(2.0, 0, 0, Ipfix), Record(4.0, 7, 1, Prefix)];
            Lost(o, h) == 1 && IdleGaps(o, h) == [2.0] && IdleFold(o, h).mean == 1.0
  {
    var o := Origin(0.0, 5);
    HalfOfTwo();
    assert Lost(o, []) == 0 && IdleGaps(o, []) == [] && IdleFold(o, []) == Welford(0.0, 0.0);
    assert !Pending(o, []) && IpfixCount([]) == 0;
    hide WelfordStep, Ratio, IdleFold, IdleGaps, Lost, IdleDeviation, Pending, IpfixCount, LastIpfix;
    var a, b, c := Record(1.0, 5, 1, Ipfix), Record(2.0, 0, 0, Ipfix), Record(4.0, 7, 1, Prefix);
    IdleAppends(o, [], a);
    IdleAppends(o, [a], b);
    IdleAppends(o, [a, b], c);
    assert [] + [a] == [a] && [a] + [b] == [a, b] && [a, b] + [c] == [a, b, c];
    assert !Counts(o, [a], b) && Counts(o, [a, b], c);
  }

  /** A time that may not have been set yet: the fields hold -1 for that. */
  function OrMinusOne(t: Option<real>): real {
    if t.Some? then t.value else -1.0
  }

  ghost predicate NonNegative(t: Option<real>) {
    t.Some? ==> 0.0 <= t.value
  }

  lemma PaddedMean(xs: seq<real>)
    ensures RunningMean(xs + [RunningMean(xs)]) == RunningMean(xs)
  {
    hide MeanStep;
    RunningMeanAppends(xs, RunningMean(xs));
    MeanOfMean(RunningMean(xs), |xs|);
  }

  // ----- The fields of a flow, in three groups, and what one record does to each -----

  datatype TimesPart = TimesPart(counter: nat, lastOctets: nat, lastObserved: real, welford: Welford, deviation: real)

  datatype RatesPart = RatesPart(byteDiff: real, packetDiff: real, avgBps: real, avgPps: real,
                                 bpsRecords: seq<real>, ppsRecords: seq<real>)

  datatype IdlePart = IdlePart(count: nat, previous: bool, lastIpfix: real, welford: Welford, deviation: real)

  /** The gap since the last time observed, or since the start of the flow. */
  function GapFrom(o: Origin, observed: real, r: Record): real {
    if observed != -1.0 then r.end - observed else r.end - o.start
  }

  function TimesMeasured(t: TimesPart, end: real, gap: real): TimesPart {
    var w := WelfordStep(t.welford, t.counter + 1, gap);
    TimesPart(t.counter + 1, t.lastOctets, end, w,
              if t.counter + 1 > 2 then Ratio(w.m2, t.counter as real) else t.deviation)
  }

  function TimesClosed(t: TimesPart, r: Record): TimesPart {
    if r.subType.Ipfix? then t.(lastObserved := r.end, lastOctets := 0) else t.(lastOctets := r.octets)
  }

  function TimesAfter(o: Origin, t: TimesPart, r: Record): TimesPart {
    TimesClosed(if r.octets > t.lastOctets then TimesMeasured(t, r.end, GapFrom(o, t.lastObserved, r)) else t, r)
  }

  function RatesMeasured(p: RatesPart, counter: nat, gap: real, r: Record): RatesPart {
    var b, k := Abs(r.octets as real - p.byteDiff), Abs(r.packets as real - p.packetDiff);
    if gap == 0.0 then p.(byteDiff := b, packetDiff := k)
    else RatesPart(b, k, MeanStep(p.avgBps, counter, Ratio(b, gap)), MeanStep(p.avgPps, counter, Ratio(k, gap)),
                   p.bpsRecords + [Ratio(b, gap)], p.ppsRecords + [Ratio(k, gap)])
  }

  function RatesClosed(p: RatesPart, r: Record): RatesPart {
    if r.subType.Ipfix? then p.(byteDiff := 0.0, packetDiff := 0.0) else p
  }

  function RatesAfter(p: RatesPart, news: bool, counter: nat, gap: real, r: Record): RatesPart {
    RatesClosed(if news then RatesMeasured(p, counter, gap, r) else p, r)
  }

  function IdleMeasured(i: IdlePart, gap: real): IdlePart
    requires i.count > 0
  {
    var w := WelfordStep(i.welford, i.count, gap);
    i.(previous := false, welford := w,
       deviation := if i.count > 2 then Ratio(w.m2, (i.count - 1) as real) else i.deviation)
  }

  function IdleClosed(i: IdlePart, r: Record): IdlePart {
    if r.subType.Ipfix? then i.(count := i.count + 1, previous := true, lastIpfix := r.end) else i
  }

  function IdleAfter(i: IdlePart, news: bool, r: Record): IdlePart
    requires i.previous ==> i.count > 0
  {
    IdleClosed(if news && i.previous && i.lastIpfix != -1.0 then IdleMeasured(i, r.end - i.lastIpfix) else i, r)
  }

  ghost predicate TimesAgree(o: Origin, h: seq<Record>, t: TimesPart) {
    && t.counter == |Gaps(o, h)|
    && t.lastOctets == Baseline(o, h)
    && NonNegative(Reference(o, h)) && t.lastObserved == OrMinusOne(Reference(o, h))
    && t.welford == WelfordFold(Gaps(o, h))
    && t.deviation == if t.counter > 2 then Ratio(t.welford.m2, (t.counter - 1) as real) else 0.0
  }

  ghost predicate RatesAgree(o: Origin, h: seq<Record>, p: RatesPart) {
    && p.byteDiff == Difference(o, h, Octets) && p.packetDiff == Difference(o, h, Packets)
    && p.bpsRecords == Rates(o, h, Octets) && p.ppsRecords == Rates(o, h, Packets)
    && p.avgBps == RunningMean(Padded(o, h, Octets)) && |Padded(o, h, Octets)| == |Gaps(o, h)|
    && p.avgPps == RunningMean(Padded(o, h, Packets)) && |Padded(o, h, Packets)| == |Gaps(o, h)|
  }

  ghost predicate IdleAgrees(o: Origin, h: seq<Record>, i: IdlePart) {
    && i.count == IpfixCount(h)
    && i.previous == Pending(o, h)
    && NonNegative(LastIpfix(h)) && i.lastIpfix == OrMinusOne(LastIpfix(h))
    && i.welford == IdleFold(o, h)
    && i.deviation == IdleDeviation(o, h)
  }

  lemma TimesKept(o: Origin, h: seq<Record>, t: TimesPart, r: Record)
    requires TimesAgree(o, h, t) && 0.0 <= r.end
    ensures TimesAgree(o, h + [r], TimesAfter(o, t, r))
    ensures GapFrom(o, t.lastObserved, r) == Gap(o, h, r)
    ensures r.octets > t.lastOctets <==> Counts(o, h, r)
  {
    hide WelfordStep, WelfordFold, Ratio, Gaps;
    GapsAppend(o, h, r);
    WelfordAppends(Gaps(o, h), Gap(o, h, r));
  }

  lemma RateFollows(o: Origin, h: seq<Record>, r: Record, which: Counter)
    ensures Counts(o, h, r) && Gap(o, h, r) == 0.0 ==>
              && Rates(o, h + [r], which) == Rates(o, h, which)
              && RunningMean(Padded(o, h + [r], which)) == RunningMean(Padded(o, h, which))
    ensures Counts(o, h, r) && Gap(o, h, r) != 0.0 ==>
              var rate := Ratio(Abs(r.Reading(which) - Difference(o, h, which)), Gap(o, h, r));
              && Rates(o, h + [r], which) == Rates(o, h, which) + [rate]
              && RunningMean(Padded(o, h + [r], which))
                 == MeanStep(RunningMean(Padded(o, h, which)), |Padded(o, h, which)|, rate)
    ensures Counts(o, h, r) ==> |Padded(o, h + [r], which)| == |Padded(o, h, which)| + 1
    ensures !Counts(o, h, r) ==>
              Rates(o, h + [r], which) == Rates(o, h, which) && Padded(o, h + [r], which) == Padded(o, h, which)
    ensures Difference(o, h + [r], which)
         == if r.subType.Ipfix? then 0.0
            else if Counts(o, h, r) then Abs(r.Reading(which) - Difference(o, h, which))
            else Difference(o, h, which)
  {
    hide Ratio, MeanStep;
    RatesAppend(o, h, r, which);
    assert Rates(o, h, which) + [] == Rates(o, h, which);
    PaddedMean(Padded(o, h, which));
    if Counts(o, h, r) && Gap(o, h, r) != 0.0 {
      RunningMeanAppends(Padded(o, h, which), RateOf(o, h, r, which)[0]);
    }
  }

  lemma RatesKept(o: Origin, h: seq<Record>, p: RatesPart, r: Record)
    requires RatesAgree(o, h, p)
    ensures RatesAgree(o, h + [r], RatesAfter(p, Counts(o, h, r), |Gaps(o, h)|, Gap(o, h, r), r))
  {
    hide Ratio, MeanStep, RunningMean, Padded, Rates;
    RateFollows(o, h, r, Octets);
    RateFollows(o, h, r, Packets);
    GapsAppend(o, h, r);
  }

  lemma IdleKept(o: Origin, h: seq<Record>, i: IdlePart, r: Record)
    requires IdleAgrees(o, h, i) && 0.0 <= r.end
    ensures IdleAgrees(o, h + [r], IdleAfter(i, Counts(o, h, r), r))
  {
    hide WelfordStep, IdleFold, IdleDeviation, Ratio;
    IdleAppends(o, h, r);
  }

  class Flow {
    const origin: Origin

    var counter: nat
    var lastOctetObserved: nat
    var lastObserved: real
    var avgTimeDiff: real
    var timeM2: real
    var stdTimeDiff: real

    var byteDiff: real
    var packetDiff: real
    var avgBps: real
    var avgPps: real
    var deltaBpsRecords: seq<real>
    var deltaPpsRecords: seq<real>

    var counterFlow: nat
    var ipfixPrevious: bool
    var lastObservedIpfix: real
    var avgTimeDiffIpfix: real
    var timeM2Ipfix: real
    var stdTimeDiffIpfix: real

    var cutoff: nat  // used by the threshold updater only

    ghost var history: seq<Record>

    function TimeFields(): TimesPart
      reads this`counter, this`lastOctetObserved, this`lastObserved, this`avgTimeDiff, this`timeM2, this`stdTimeDiff
    {
      TimesPart(counter, lastOctetObserved, lastObserved, Welford(avgTimeDiff, timeM2), stdTimeDiff)
    }

    function RateFields(): RatesPart
      reads this`byteDiff, this`packetDiff, this`avgBps, this`avgPps, this`deltaBpsRecords, this`deltaPpsRecords
    {
      RatesPart(byteDiff, packetDiff, avgBps, avgPps, deltaBpsRecords, deltaPpsRecords)
    }

    function IdleFields(): IdlePart
      reads this`counterFlow, this`ipfixPrevious, this`lastObservedIpfix, this`avgTimeDiffIpfix, this`timeM2Ipfix,
            this`stdTimeDiffIpfix
    {
      IdlePart(counterFlow, ipfixPrevious, lastObservedIpfix, Welford(avgTimeDiffIpfix, timeM2Ipfix), stdTimeDiffIpfix)
    }

    /** Every field is the function of the history it stands for. */
    ghost predicate Valid()
      reads this
    {
      && TimesAgree(origin, history, TimeFields())
      && RatesAgree(origin, history, RateFields())
      && IdleAgrees(origin, history, IdleFields())
    }

    constructor (start: real, octets: nat)
      ensures Valid() && history == [] && origin == Origin(start, octets) && cutoff == 0
    {
      origin := Origin(start, octets);
      counter, lastOctetObserved, lastObserved := 0, octets, -1.0;
      avgTimeDiff, timeM2, stdTimeDiff := 0.0, 0.0, 0.0;
      byteDiff, packetDiff, avgBps, avgPps := 0.0, 0.0, 0.0, 0.0;
      deltaBpsRecords, deltaPpsRecords := [], [];
      counterFlow, ipfixPrevious, lastObservedIpfix := 0, false, -1.0;
      avgTimeDiffIpfix, timeM2Ipfix, stdTimeDiffIpfix := 0.0, 0.0, 0.0;
      cutoff, history := 0, [];
    }

    /** Rates against the gap; a zero gap raises an exception before anything is recorded. */
    method TakeRates(r: Record, timeDiff: real)
      modifies this`byteDiff, this`packetDiff, this`avgBps, this`avgPps, this`deltaBpsRecords, this`deltaPpsRecords
      ensures RateFields() == RatesMeasured(old(RateFields()), counter, timeDiff, r)
      ensures old(deltaBpsRecords) <= deltaBpsRecords
    {
      byteDiff := Abs(r.octets as real - byteDiff);
      packetDiff := Abs(r.packets as real - packetDiff);
      if timeDiff != 0.0 {
        var deltaBps, deltaPps := byteDiff / timeDiff, packetDiff / timeDiff;
        avgBps := (avgBps * counter as real + deltaBps) / (counter + 1) as real;
        avgPps := (avgPps * counter as real + deltaPps) / (counter + 1) as real;
        deltaBpsRecords := deltaBpsRecords + [deltaBps];
        deltaPpsRecords := deltaPpsRecords + [deltaPps];
      }
    }

    method TakeGap(end: real, timeDiff: real)
      modifies this`counter, this`lastObserved, this`avgTimeDiff, this`timeM2, this`stdTimeDiff
      ensures TimeFields() == TimesMeasured(old(TimeFields()), end, timeDiff)
    {
      lastObserved := end;
      counter := counter + 1;
      var deltaTime := timeDiff - avgTimeDiff;
      avgTimeDiff := avgTimeDiff + deltaTime / counter as real;
      var delta2Time := timeDiff - avgTimeDiff;
      timeM2 := timeM2 + deltaTime * delta2Time;
      if counter > 2 {
        stdTimeDiff := timeM2 / (counter - 1) as real;
      }
    }

    method TakeIdleGap(timeDiff: real)
      requires counterFlow > 0
      modifies this`ipfixPrevious, this`avgTimeDiffIpfix, this`timeM2Ipfix, this`stdTimeDiffIpfix
      ensures IdleFields() == IdleMeasured(old(IdleFields()), timeDiff)
    {
      var deltaTime := timeDiff - avgTimeDiffIpfix;
      avgTimeDiffIpfix := avgTimeDiffIpfix + deltaTime / counterFlow as real;
      var delta2Time := timeDiff - avgTimeDiffIpfix;
      timeM2Ipfix := timeM2Ipfix + deltaTime * delta2Time;
      if counterFlow > 2 {
        stdTimeDiffIpfix := timeM2Ipfix / (counterFlow - 1) as real;
      }
      ipfixPrevious := false;
    }

    /** The end of a record: an `ipfix` record starts a new session. */
    method Finish(r: Record)
      modifies this`byteDiff, this`packetDiff, this`lastObserved, this`counterFlow, this`ipfixPrevious,
               this`lastObservedIpfix, this`lastOctetObserved
      ensures TimeFields() == TimesClosed(old(TimeFields()), r)
      ensures RateFields() == RatesClosed(old(RateFields()), r)
      ensures IdleFields() == IdleClosed(old(IdleFields()), r)
    {
      if r.subType.Ipfix? {
        byteDiff, packetDiff := 0.0, 0.0;
        lastObserved := r.end;
        counterFlow := counterFlow + 1;
        ipfixPrevious := true;
        lastObservedIpfix := r.end;
        lastOctetObserved := 0;
      } else {
        lastOctetObserved := r.octets;
      }
    }

    /** The first half of a record that brings news. */
    method TakeNews(r: Record)
      requires ipfixPrevious ==> counterFlow > 0
      modifies this
      ensures TimeFields() == TimesMeasured(old(TimeFields()), r.end, GapFrom(origin, old(lastObserved), r))
      ensures RateFields() == RatesMeasured(old(RateFields()), old(counter), GapFrom(origin, old(lastObserved), r), r)
      ensures IdleFields() == if old(ipfixPrevious && lastObservedIpfix != -1.0)
                              then IdleMeasured(old(IdleFields()), r.end - old(lastObservedIpfix))
                              else old(IdleFields())
      ensures history == old(history) && cutoff == old(cutoff)
      ensures old(deltaBpsRecords) <= deltaBpsRecords
    {
      hide TimesMeasured, RatesMeasured, IdleMeasured;
      var timeDiff := if lastObserved != -1.0 then r.end - lastObserved else r.end - origin.start;
      TakeRates(r, timeDiff);
      TakeGap(r.end, timeDiff);
      if ipfixPrevious && lastObservedIpfix != -1.0 {
        TakeIdleGap(r.end - lastObservedIpfix);
      }
    }

    /** What one record does, group by group; the bodies follow the order of the source. */
    method Measure(r: Record)
      requires ipfixPrevious ==> counterFlow > 0
      modifies this
      ensures TimeFields() == TimesAfter(origin, old(TimeFields()), r)
      ensures RateFields() == RatesAfter(old(RateFields()), r.octets > old(lastOctetObserved), old(counter),
                                         GapFrom(origin, old(lastObserved), r), r)
      ensures IdleFields() == IdleAfter(old(IdleFields()), r.octets > old(lastOctetObserved), r)
      ensures history == old(history) && cutoff == old(cutoff)
      ensures old(deltaBpsRecords) <= deltaBpsRecords
    {
      hide TimesMeasured, RatesMeasured, IdleMeasured, TimesClosed, RatesClosed, IdleClosed;
      if r.octets as int - lastOctetObserved as int > 0 {
        TakeNews(r);
      }
      Finish(r);
    }

    /** Takes in one record. Times are counted from an epoch, so they are never negative. */
    method Update(r: Record)
      requires Valid() && 0.0 <= r.end
      modifies this
      ensures Valid() && history == old(history) + [r] && cutoff == old(cutoff)
      ensures old(deltaBpsRecords) <= deltaBpsRecords
    {
      hide TimesAfter, RatesAfter, IdleAfter;
      TimesKept(origin, history, TimeFields(), r);
      RatesKept(origin, history, RateFields(), r);
      IdleKept(origin, history, IdleFields(), r);
      Measure(r);
      history := history + [r];
    }

    /** The gaps between records: exact on every run. */
    lemma TimesAreExact()
      requires Valid()
      ensures IsMean(avgTimeDiff, Gaps(origin, history))
      ensures timeM2 == SquaredDeviations(Gaps(origin, history), avgTimeDiff)
      ensures stdTimeDiff == if counter > 2 then Ratio(timeM2, (counter - 1) as real) else 0.0
    {
      hide Times, Ratio;
      WelfordIsExact(Gaps(origin, history));
    }

    /** The rates: the counter is the number of rates, hence the means exact, if no gap was zero. */
    lemma RatesAreExact()
      requires Valid()
      ensures counter == |deltaBpsRecords| == |deltaPpsRecords| <==> forall g | g in Gaps(origin, history) :: g != 0.0
      ensures counter == |deltaBpsRecords| ==> IsMean(avgBps, deltaBpsRecords) && IsMean(avgPps, deltaPpsRecords)
    {
      hide Times, RunningMean;
      RatesLagByZeroGaps(origin, history, Octets);
      RatesLagByZeroGaps(origin, history, Packets);
      RunningMeanIsMean(Padded(origin, history, Octets));
      RunningMeanIsMean(Padded(origin, history, Packets));
    }

    /** The idle gaps: the count is right, hence the statistics exact, if no record was lost. */
    lemma IdleIsExact()
      requires Valid()
      ensures counterFlow == |IdleGaps(origin, history)| + (if ipfixPrevious then 1 else 0)
         <==> Lost(origin, history) == 0
      ensures Lost(origin, history) == 0 ==>
                && IsMean(avgTimeDiffIpfix, IdleGaps(origin, history))
                && timeM2Ipfix == SquaredDeviations(IdleGaps(origin, history), avgTimeDiffIpfix)
                && stdTimeDiffIpfix == if |IdleGaps(origin, history)| <= 2 then 0.0
                                       else Ratio(timeM2Ipfix, (|IdleGaps(origin, history)| - 1) as real)
    {
      hide Times, Ratio;
      IdleCount(origin, history);
      if Lost(origin, history) == 0 {
        IdleFoldIsWelford(origin, history);
        WelfordIsExact(IdleGaps(origin, history));
      }
    }
  }
}
