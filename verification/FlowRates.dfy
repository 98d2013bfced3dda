/** The per-flow byte and packet rates of the IPFIX handler, against the history of messages. */
module FlowRates {
  import opened Options
  import opened PythonValues
  import opened ThresholdMatching

  datatype Flow = Flow(source: Scalar, destination: Scalar, sourcePort: Scalar, destinationPort: Scalar)

  /** One message of a flow, with its counters and the clock reading in microseconds. */
  datatype Arrival = Arrival(flow: Flow, octets: real, packets: real, now: int)

  datatype Sample = Sample(bps: real, pps: real)

  datatype Totals = Totals(bps: real, pps: real, count: nat)

  /** The `seconds` attribute of a time difference: whole seconds, without the full days. */
  function Seconds(microseconds: int): nat {
    (microseconds / 1_000_000) % 86_400
  }

  // ----- What the history says -----

  /** The latest message of the flow. */
  function Last(history: seq<Arrival>, flow: Flow): Option<Arrival> {
    if history == [] then None
    else if history[|history| - 1].flow == flow then Some(history[|history| - 1])
    else Last(history[..|history| - 1], flow)
  }

  /** The rate between two successive messages of a flow; none if no full second has passed. */
  function SampleBetween(previous: Arrival, next: Arrival): seq<Sample> {
    var seconds := Seconds(next.now - previous.now);
    if seconds > 0 then
      [Sample(Mean(next.octets - previous.octets, seconds), Mean(next.packets - previous.packets, seconds))]
    else []
  }

  /** All rates of the flow, oldest first. */
  function Samples(history: seq<Arrival>, flow: Flow): seq<Sample> {
    if history == [] then []
    else
      var earlier, next := history[..|history| - 1], history[|history| - 1];
      if next.flow != flow || Last(earlier, flow).None? then Samples(earlier, flow)
      else Samples(earlier, flow) + SampleBetween(Last(earlier, flow).value, next)
  }

  function Total(samples: seq<Sample>): Totals {
    if samples == [] then Totals(0.0, 0.0, 0)
    else
      var t := Total(samples[..|samples| - 1]);
      var s := samples[|samples| - 1];
      Totals(t.bps + s.bps, t.pps + s.pps, t.count + 1)
  }

  /** The two tables hold the latest message of the flow and the totals of all its rates. */
  ghost predicate RefinesAt(history: seq<Arrival>, deltaBps: map<Flow, Arrival>, avgBps: map<Flow, Totals>, f: Flow) {
    && Last(history, f) == (if f in deltaBps then Some(deltaBps[f]) else None)
    && (f in avgBps <==> Samples(history, f) != [])
    && (f in avgBps ==> avgBps[f] == Total(Samples(history, f)))
  }

  ghost predicate Refines(history: seq<Arrival>, deltaBps: map<Flow, Arrival>, avgBps: map<Flow, Totals>) {
    forall f {:trigger RefinesAt(history, deltaBps, avgBps, f)} :: RefinesAt(history, deltaBps, avgBps, f)
  }

  lemma {:induction false} TotalCounts(samples: seq<Sample>)
    ensures Total(samples).count == |samples|
  {
    if samples != [] {
      TotalCounts(samples[..|samples| - 1]);
    }
  }

  /** Only the flow of the message is affected. */
  lemma Appending(history: seq<Arrival>, next: Arrival, flow: Flow)
    ensures Last(history + [next], flow) == if flow == next.flow then Some(next) else Last(history, flow)
    ensures Samples(history + [next], flow)
         == if flow != next.flow || Last(history, flow).None? then Samples(history, flow)
            else Samples(history, flow) + SampleBetween(Last(history, flow).value, next)
  {
    assert (history + [next])[..|history|] == history;
  }

  lemma TotalAppends(samples: seq<Sample>, s: Sample)
    ensures Total(samples + [s])
         == Totals(Total(samples).bps + s.bps, Total(samples).pps + s.pps, Total(samples).count + 1)
  {
    assert (samples + [s])[..|samples|] == samples;
  }

  /** The byte differences of a flow, message by message. */
  function ByteDiffs(history: seq<Arrival>, flow: Flow): real {
    if history == [] then 0.0
    else
      var earlier, next := history[..|history| - 1], history[|history| - 1];
      ByteDiffs(earlier, flow) +
      if next.flow == flow && Last(earlier, flow).Some? then next.octets - Last(earlier, flow).value.octets else 0.0
  }

  function First(history: seq<Arrival>, flow: Flow): Option<Arrival> {
    if history == [] then None
    else if history[0].flow == flow then Some(history[0])
    else First(history[1..], flow)
  }

  lemma {:induction false} FirstIsKept(history: seq<Arrival>, next: Arrival, flow: Flow)
    ensures First(history + [next], flow)
         == if First(history, flow).Some? then First(history, flow)
            else if next.flow == flow then Some(next) else None
    ensures First(history, flow).Some? <==> Last(history, flow).Some?
    decreases |history|
  {
    if history != [] {
      assert (history + [next])[1..] == history[1..] + [next];
      FirstIsKept(history[1..], next, flow);
      LastOfTail(history, flow);
    }
  }

  lemma {:induction false} LastOfTail(history: seq<Arrival>, flow: Flow)
    requires history != []
    ensures Last(history, flow)
         == if Last(history[1..], flow).Some? then Last(history[1..], flow)
            else if history[0].flow == flow then Some(history[0]) else None
    decreases |history|
  {
    if |history| > 1 {
      var front := history[..|history| - 1];
      assert history[1..][..|history| - 2] == front[1..];
      LastOfTail(front, flow);
    }
  }

  /** The differences telescope: together they are the last count less the first. */
  lemma {:induction false} ByteDiffsTelescope(history: seq<Arrival>, flow: Flow)
    ensures Last(history, flow).None? ==> ByteDiffs(history, flow) == 0.0
    ensures Last(history, flow).Some? ==>
              && First(history, flow).Some?
              && ByteDiffs(history, flow) == Last(history, flow).value.octets - First(history, flow).value.octets
  {
    if history != [] {
      var earlier, next := history[..|history| - 1], history[|history| - 1];
      assert history == earlier + [next];
      ByteDiffsTelescope(earlier, flow);
      FirstIsKept(earlier, next, flow);
    }
  }

  // ----- The history by positions -----

  /** The whole seconds are what is left of the difference without full days and microseconds. */
  lemma SecondsOfDifference(microseconds: int) returns (days: int)
    ensures 0 <= Seconds(microseconds) < 86_400
    ensures var rest := microseconds - days * 86_400_000_000 - Seconds(microseconds) * 1_000_000; 0 <= rest < 1_000_000
  {
    days := microseconds / 1_000_000 / 86_400;
  }

  /** Message `j` is the latest one of the flow before position `i`. */
  ghost predicate LatestBefore(history: seq<Arrival>, flow: Flow, j: nat, i: nat)
    requires j < i <= |history|
  {
    history[j].flow == flow && forall k | j < k < i :: history[k].flow != flow
  }

  lemma {:induction false} LastByPosition(history: seq<Arrival>, flow: Flow)
    ensures Last(history, flow).None? <==> forall j | 0 <= j < |history| :: history[j].flow != flow
    ensures forall j: nat | j < |history| && LatestBefore(history, flow, j, |history|) ::
              Last(history, flow) == Some(history[j])
    ensures Last(history, flow).Some? ==>
              exists j: nat :: j < |history| && LatestBefore(history, flow, j, |history|)
  {
    if history != [] {
      var n := |history| - 1;
      LastByPosition(history[..n], flow);
      if history[n].flow == flow {
        assert LatestBefore(history, flow, n, |history|);
      } else if Last(history[..n], flow).Some? {
        var j: nat :| j < n && LatestBefore(history[..n], flow, j, n);
        assert LatestBefore(history, flow, j, |history|);
      }
      forall j: nat | j < |history| && LatestBefore(history, flow, j, |history|)
        ensures Last(history, flow) == Some(history[j])
      {
        if j < n {
          assert LatestBefore(history[..n], flow, j, n);
        }
      }
    }
  }

  /** Both rates, over the time between the two messages, give the differences of their counters. */
  ghost predicate IsRate(s: Sample, previous: Arrival, next: Arrival) {
    var seconds := Seconds(next.now - previous.now) as real;
    && seconds > 0.0
    && s.bps * seconds == next.octets - previous.octets
    && s.pps * seconds == next.packets - previous.packets
  }

  lemma SampleIsRate(previous: Arrival, next: Arrival)
    ensures var sample := SampleBetween(previous, next);
            if Seconds(next.now - previous.now) > 0 then |sample| == 1 && IsRate(sample[0], previous, next)
            else sample == []
  {
  }

  /** Message `i` is of the flow and has a rate: a second after message `j`, the one before it. */
  ghost predicate HasRate(history: seq<Arrival>, flow: Flow, j: nat, i: nat)
    requires j < i < |history|
  {
    history[i].flow == flow && LatestBefore(history, flow, j, i) && Seconds(history[i].now - history[j].now) > 0
  }

  /** These positions, in order, are those with a rate, and these are their rates. */
  ghost predicate RatesAt(history: seq<Arrival>, flow: Flow, samples: seq<Sample>, at: seq<nat>) {
    && |at| == |samples|
    && (forall k, l | 0 <= k < l < |at| :: at[k] < at[l])
    && (forall k | 0 <= k < |at| :: at[k] < |history| && RateIn(history, flow, samples[k], at[k]))
    && (forall j: nat, i: nat | j < i < |history| && HasRate(history, flow, j, i) :: i in at)
  }

  ghost predicate RateIn(history: seq<Arrival>, flow: Flow, s: Sample, i: nat)
    requires i < |history|
  {
    exists j: nat :: j < i && HasRate(history, flow, j, i) && IsRate(s, history[j], history[i])
  }

  /** The samples of a flow are the rates at exactly the positions that have one. */
  lemma {:induction false} SamplesByPosition(history: seq<Arrival>, flow: Flow) returns (at: seq<nat>)
    ensures RatesAt(history, flow, Samples(history, flow), at)
  {
    hide RatesAt, IsRate, SampleBetween;
    at := [];
    if history == [] {
      NoRatesYet(flow);
    } else {
      var n := |history| - 1;
      var earlier := history[..n];
      at := SamplesByPosition(earlier, flow);
      LastByPosition(earlier, flow);
      if history[n].flow != flow || Last(earlier, flow).None? {
        RatesStay(history, flow, Samples(earlier, flow), at);
      } else {
        var j: nat :| j < n && LatestBefore(earlier, flow, j, n);
        SampleIsRate(history[j], history[n]);
        assert LatestBefore(history, flow, j, n);
        if Seconds(history[n].now - history[j].now) > 0 {
          var s := SampleBetween(history[j], history[n])[0];
          assert HasRate(history, flow, j, n);
          RatesGrow(history, flow, Samples(earlier, flow), at, s);
          assert Samples(history, flow) == Samples(earlier, flow) + [s];
          at := at + [n];
        } else {
          RatesStay(history, flow, Samples(earlier, flow), at);
          assert Samples(history, flow) == Samples(earlier, flow);
        }
      }
    }
  }

  lemma NoRatesYet(flow: Flow)
    ensures RatesAt([], flow, [], [])
  {
  }

  lemma HasRateStays(history: seq<Arrival>, flow: Flow, j: nat, i: nat)
    requires j < i < |history| - 1
    ensures HasRate(history[..|history| - 1], flow, j, i) <==> HasRate(history, flow, j, i)
  {
    var earlier := history[..|history| - 1];
    assert forall k | 0 <= k < |earlier| :: earlier[k] == history[k];
    assert LatestBefore(earlier, flow, j, i) <==> LatestBefore(history, flow, j, i);
  }

  lemma RatesKept(history: seq<Arrival>, flow: Flow, samples: seq<Sample>, at: seq<nat>)
    requires history != [] && RatesAt(history[..|history| - 1], flow, samples, at)
    ensures forall k | 0 <= k < |at| :: at[k] < |history| - 1 && RateIn(history, flow, samples[k], at[k])
  {
    hide HasRate, IsRate;
    forall k | 0 <= k < |at|
      ensures at[k] < |history| - 1 && RateIn(history, flow, samples[k], at[k])
    {
      var earlier := history[..|history| - 1];
      assert RateIn(earlier, flow, samples[k], at[k]);
      var j: nat :| j < at[k] && HasRate(earlier, flow, j, at[k]) && IsRate(samples[k], earlier[j], earlier[at[k]]);
      HasRateStays(history, flow, j, at[k]);
    }
  }

  lemma RatesStay(history: seq<Arrival>, flow: Flow, samples: seq<Sample>, at: seq<nat>)
    requires history != [] && RatesAt(history[..|history| - 1], flow, samples, at)
    requires forall j: nat, i: nat | j < i == |history| - 1 :: !HasRate(history, flow, j, i)
    ensures RatesAt(history, flow, samples, at)
  {
    hide HasRate, RateIn;
    RatesKept(history, flow, samples, at);
    forall j: nat, i: nat | j < i < |history| && HasRate(history, flow, j, i)
      ensures i in at
    {
      if i < |history| - 1 {
        HasRateStays(history, flow, j, i);
      }
    }
  }

  lemma RatesGrow(history: seq<Arrival>, flow: Flow, samples: seq<Sample>, at: seq<nat>, s: Sample)
    requires history != [] && RatesAt(history[..|history| - 1], flow, samples, at)
    requires RateIn(history, flow, s, |history| - 1)
    ensures RatesAt(history, flow, samples + [s], at + [|history| - 1])
  {
    hide HasRate, RateIn;
    RatesKept(history, flow, samples, at);
    var at' := at + [|history| - 1];
    forall j: nat, i: nat | j < i < |history| && HasRate(history, flow, j, i)
      ensures i in at'
    {
      if i < |history| - 1 {
        HasRateStays(history, flow, j, i);
      } else {
        assert at'[|at|] == i;
      }
    }
  }

  /** The totals of two lists together are the sums of their totals. */
  lemma {:induction false} TotalsAdd(a: seq<Sample>, b: seq<Sample>)
    ensures Total(a + b).bps == Total(a).bps + Total(b).bps && Total(a + b).pps == Total(a).pps + Total(b).pps
    ensures forall s: Sample :: Total([s]).bps == s.bps && Total([s]).pps == s.pps
  {
    if b == [] {
      assert a + b == a;
    } else {
      TotalsAdd(a, b[..|b| - 1]);
      assert (a + b)[..|a + b| - 1] == a + b[..|b| - 1];
    }
  }

  lemma AddRateKeepsTotals(samples: seq<Sample>, rate: seq<Sample>, avgBps: map<Flow, Totals>, flow: Flow)
    requires |rate| <= 1
    requires flow in avgBps <==> samples != []
    requires flow in avgBps ==> avgBps[flow] == Total(samples)
    ensures var after := AddRate(avgBps, flow, rate);
            && (flow in after <==> samples + rate != [])
            && (flow in after ==> after[flow] == Total(samples + rate))
  {
    if rate == [] {
      assert samples + rate == samples;
    } else {
      assert rate == [rate[0]];
      TotalAppends(samples, rate[0]);
    }
  }

  lemma RecordKeepsRefines(history: seq<Arrival>, next: Arrival, rate: seq<Sample>,
                           deltaBps: map<Flow, Arrival>, avgBps: map<Flow, Totals>)
    requires Refines(history, deltaBps, avgBps)
    requires rate == if next.flow !in deltaBps then [] else SampleBetween(deltaBps[next.flow], next)
    ensures Refines(history + [next], deltaBps[next.flow := next], AddRate(avgBps, next.flow, rate))
    ensures Samples(history + [next], next.flow) == Samples(history, next.flow) + rate
  {
    var flow, delta', avg' := next.flow, deltaBps[next.flow := next], AddRate(avgBps, next.flow, rate);
    assert RefinesAt(history, deltaBps, avgBps, flow);
    Appending(history, next, flow);
    assert Samples(history, flow) + [] == Samples(history, flow);
    AddRateKeepsTotals(Samples(history, flow), rate, avgBps, flow);
    forall f {:trigger RefinesAt(history + [next], delta', avg', f)}
      ensures RefinesAt(history + [next], delta', avg', f)
    {
      if f != flow {
        assert RefinesAt(history, deltaBps, avgBps, f);
        Appending(history, next, f);
      }
    }
  }

  /** Adds a rate to the totals of its flow. */
  function AddRate(avgBps: map<Flow, Totals>, flow: Flow, rate: seq<Sample>): map<Flow, Totals>
    requires |rate| <= 1
  {
    if rate == [] then avgBps
    else if flow in avgBps then
      var t := avgBps[flow];
      avgBps[flow := Totals(t.bps + rate[0].bps, t.pps + rate[0].pps, t.count + 1)]
    else avgBps[flow := Totals(rate[0].bps, rate[0].pps, 1)]
  }

  /** The mean of the rates, once there is one. */
  ghost function WithAverages(stats: FlowStats, samples: seq<Sample>): FlowStats {
    if samples == [] then stats
    else stats.(avgBps := Some(Mean(Total(samples).bps, |samples|)),
                avgPps := Some(Mean(Total(samples).pps, |samples|)))
  }

  function Mean(sum: real, n: nat): real
    requires n > 0
  {
    sum / n as real
  }

  /** The differences to the latest message of the flow, and the rate they amount to. */
  ghost predicate Compares(stats: FlowStats, previous: Option<Arrival>, next: Arrival) {
    && stats.byteTotal == next.octets && stats.packetTotal == next.packets
    && stats.avgBps.None? && stats.avgPps.None?
    && (stats.deltaBps.Some? <==> stats.deltaPps.Some?)
    && match previous
       case None => stats.byteDiff.None? && stats.packetDiff.None? && stats.timeDiff.None? && stats.deltaBps.None?
       case Some(p) =>
         && stats.byteDiff == Some(next.octets - p.octets)
         && stats.packetDiff == Some(next.packets - p.packets)
         && stats.timeDiff == Some(next.now - p.now)
         && RateOf(stats) == SampleBetween(p, next)
  }

  /** The statistics that belong to a message, in terms of the history alone. */
  ghost predicate Reports(stats: FlowStats, history: seq<Arrival>, next: Arrival) {
    exists d :: Compares(d, Last(history, next.flow), next)
             && stats == WithAverages(d, Samples(history + [next], next.flow))
  }

  /**
   * A threshold on the time difference is a number, and the difference is none: checking it
   * raises a TypeError for exactly the messages of a flow that has been seen before.
   */
  lemma TimeDifferenceRaisesIff(stats: FlowStats, history: seq<Arrival>, next: Arrival, e: Entries)
    requires WellFormed(e) && Reports(stats, history, next)
    ensures CheckThreshold(stats, e).TypeError? <==>
              && "metric" in e && "threshold" in e && e["metric"].v == Str("time_diff")
              && Last(history, next.flow).Some?
  {
    TypeErrorIff(stats, e);
  }

  /** What is decided about a threshold, metric by metric, in terms of the messages alone. */
  ghost predicate Judged(exceeded: bool, raised: bool, e: Entries, history: seq<Arrival>, next: Arrival)
    requires WellFormed(e)
  {
    if "metric" !in e || "threshold" !in e then exceeded && !raised
    else
      var metric, limit := e["metric"].v.s, e["threshold"].v.n;
      && (metric == "byte_total" ==> (exceeded <==> limit < next.octets))
      && (metric == "packet_total" ==> (exceeded <==> limit < next.packets))
      && (metric in {"avg_bps", "avg_pps"} ==> (exceeded <==> MeanExceeds(metric, limit, history + [next], next.flow)))
      && (metric in {"time_diff"} || metric !in VALID_METRICS ==> !exceeded)
      && match Last(history, next.flow)
         case None =>
           !raised && (metric in {"byte_diff", "packet_diff", "delta_bps", "delta_pps"} ==> !exceeded)
         case Some(p) =>
           && (raised <==> metric == "time_diff")
           && (metric == "byte_diff" ==> (exceeded <==> limit < next.octets - p.octets))
           && (metric == "packet_diff" ==> (exceeded <==> limit < next.packets - p.packets))
           && (metric == "delta_bps" ==> (exceeded <==> RateExceeds(limit, next.octets - p.octets, next.now - p.now)))
           && (metric == "delta_pps" ==> (exceeded <==> RateExceeds(limit, next.packets - p.packets, next.now - p.now)))
  }

  /** A full second has passed, and the difference is more than the limit for each second. */
  ghost predicate RateExceeds(limit: real, difference: real, microseconds: int) {
    var seconds := Seconds(microseconds);
    seconds > 0 && Above(difference, limit, seconds)
  }

  /** There is a rate of the flow, and their sum is more than the limit for each of them. */
  ghost predicate MeanExceeds(metric: string, limit: real, history: seq<Arrival>, flow: Flow) {
    var samples := Samples(history, flow);
    && samples != []
    && Above(if metric == "avg_bps" then Total(samples).bps else Total(samples).pps, limit, |samples|)
  }

  /** More than the limit for each of `n`. */
  ghost predicate Above(sum: real, limit: real, n: nat) {
    limit * n as real < sum
  }

  lemma MeanIsAbove(sum: real, limit: real, n: nat)
    requires n > 0
    ensures limit < Mean(sum, n) <==> Above(sum, limit, n)
  {
    var mean, m := Mean(sum, n), n as real;
    assert mean * m == sum;
    if limit < mean {
      Scaled(limit, mean, m);
    } else {
      Scaled(mean, limit, m);
    }
  }

  lemma Scaled(a: real, b: real, y: real)
    requires y > 0.0
    ensures a < b ==> a * y < b * y
    ensures a <= b ==> a * y <= b * y
  {
  }

  lemma DeltasJudge(stats: FlowStats, p: Arrival, next: Arrival, limit: real)
    requires Compares(stats, Some(p), next)
    ensures stats.deltaBps.Some? && limit < stats.deltaBps.value
       <==> RateExceeds(limit, next.octets - p.octets, next.now - p.now)
    ensures stats.deltaPps.Some? && limit < stats.deltaPps.value
       <==> RateExceeds(limit, next.packets - p.packets, next.now - p.now)
  {
    hide Mean, Above;
    var seconds := Seconds(next.now - p.now);
    assert seconds == 0 ==> SampleBetween(p, next) == [];
    if seconds > 0 {
      assert SampleBetween(p, next)[0] == RateOf(stats)[0];
      MeanIsAbove(next.octets - p.octets, limit, seconds);
      MeanIsAbove(next.packets - p.packets, limit, seconds);
    }
  }

  lemma AveragesJudge(d: FlowStats, history: seq<Arrival>, flow: Flow, limit: real)
    requires d.avgBps.None? && d.avgPps.None?
    ensures var stats := WithAverages(d, Samples(history, flow));
            && (stats.avgBps.Some? && limit < stats.avgBps.value <==> MeanExceeds("avg_bps", limit, history, flow))
            && (stats.avgPps.Some? && limit < stats.avgPps.value <==> MeanExceeds("avg_pps", limit, history, flow))
  {
    hide Mean, Above;
    var samples := Samples(history, flow);
    if samples != [] {
      MeanIsAbove(Total(samples).bps, limit, |samples|);
      MeanIsAbove(Total(samples).pps, limit, |samples|);
    }
  }

  lemma ReportsJudge(exceeded: bool, raised: bool, e: Entries, stats: FlowStats, history: seq<Arrival>, next: Arrival)
    requires WellFormed(e) && Reports(stats, history, next) && Judges(exceeded, raised, e, stats)
    ensures Judged(exceeded, raised, e, history, next)
  {
    hide RateExceeds, MeanExceeds, SampleBetween, Samples;
    var d :| Compares(d, Last(history, next.flow), next)
             && stats == WithAverages(d, Samples(history + [next], next.flow));
    if "metric" in e && "threshold" in e {
      var limit := e["threshold"].v.n;
      AveragesJudge(d, history + [next], next.flow, limit);
      if Last(history, next.flow).Some? {
        DeltasJudge(d, Last(history, next.flow).value, next, limit);
      }
    }
  }

  function RateOf(stats: FlowStats): seq<Sample> {
    if stats.deltaBps.Some? && stats.deltaPps.Some? then [Sample(stats.deltaBps.value, stats.deltaPps.value)] else []
  }

  /** The dictionaries `_delta_bps` and `_avg_bps` of the handler. */
  class RateTables {
    var deltaBps: map<Flow, Arrival>
    var avgBps: map<Flow, Totals>

    ghost var history: seq<Arrival>

    ghost predicate Valid()
      reads this
    {
      Refines(history, deltaBps, avgBps)
    }

    constructor ()
      ensures Valid() && history == []
    {
      deltaBps, avgBps, history := map[], map[], [];
    }

    /** The differences to the previous message of the flow, and the rate if there is one. */
    method Differences(next: Arrival) returns (stats: FlowStats)
      ensures Compares(stats, if next.flow in deltaBps then Some(deltaBps[next.flow]) else None, next)
    {
      stats := FlowStats(next.octets, next.packets, None, None, None, None, None, None, None);
      if next.flow in deltaBps {
        var previous := deltaBps[next.flow];
        var byteDiff, packetDiff := next.octets - previous.octets, next.packets - previous.packets;
        stats := stats.(byteDiff := Some(byteDiff), packetDiff := Some(packetDiff),
                        timeDiff := Some(next.now - previous.now));
        var seconds := Seconds(next.now - previous.now);
        if seconds > 0 {
          stats := stats.(deltaBps := Some(Mean(byteDiff, seconds)), deltaPps := Some(Mean(packetDiff, seconds)));
        }
      }
    }

    /** Counts the rate of the message, if it has one, towards the totals of its flow. */
    method AddToTotals(flow: Flow, stats: FlowStats)
      modifies this`avgBps
      ensures avgBps == AddRate(old(avgBps), flow, RateOf(stats))
    {
      if stats.deltaBps.Some? && stats.deltaPps.Some? {
        var bps, pps := stats.deltaBps.value, stats.deltaPps.value;
        if flow in avgBps {
          var t := avgBps[flow];
          avgBps := avgBps[flow := Totals(t.bps + bps, t.pps + pps, t.count + 1)];
        } else {
          avgBps := avgBps[flow := Totals(bps, pps, 1)];
        }
      }
    }

    /** Adds the mean of all rates of the flow. */
    method Averages(flow: Flow, stats: FlowStats) returns (full: FlowStats)
      requires RefinesAt(history, deltaBps, avgBps, flow) && stats.avgBps.None? && stats.avgPps.None?
      ensures full == WithAverages(stats, Samples(history, flow))
    {
      TotalCounts(Samples(history, flow));
      full := stats;
      if flow in avgBps {
        full := full.(avgBps := Some(Mean(avgBps[flow].bps, avgBps[flow].count)),
                      avgPps := Some(Mean(avgBps[flow].pps, avgBps[flow].count)));
      }
    }

    /** Takes in one message and returns the statistics that a threshold can be compared with. */
    method Record(next: Arrival) returns (stats: FlowStats)
      requires Valid()
      modifies this
      ensures Valid() && history == old(history) + [next]
      ensures Reports(stats, old(history), next)
    {
      var flow := next.flow;
      stats := Differences(next);
      assert RefinesAt(history, deltaBps, avgBps, flow);
      RecordKeepsRefines(history, next, RateOf(stats), deltaBps, avgBps);
      deltaBps := deltaBps[flow := next];
      AddToTotals(flow, stats);
      history := history + [next];
      assert RefinesAt(history, deltaBps, avgBps, flow);
      stats := Averages(flow, stats);
    }
  }
}
