/** Learning thresholds: each flow's new rates are consumed in windows and smoothed into one value. */
module ThresholdUpdater {
  import opened Options
  import opened Flows

  /** The settings, with the estimate of one window (its mean plus a margin) left abstract. */
  datatype Config = Config(minimumStep: int, smoothing: real, estimate: seq<real> -> real)

  /** A window that was taken into the threshold of a flow. */
  datatype Commit = Commit(lo: nat, hi: nat, value: real)

  /** What is kept for one flow, with the log of its commits. */
  datatype Slot = Slot(threshold: Option<real>, cutoff: nat, log: seq<Commit>)

  /** The key of a flow in the dictionaries: the hash of its addresses and ports. */
  datatype FlowHash = FlowHash(value: int)

  /** A request sent to the coordinator, with the threshold cut to an integer. */
  datatype Post = Post(hash: FlowHash, isNew: bool, threshold: int)

  /** Python's int(): towards zero. */
  function Truncate(x: real): int {
    if x < 0.0 then -((-x).Floor) else x.Floor
  }

  /** Python's records[-n:]; with n = 0 this is the whole list. */
  function LastValues(records: seq<real>, n: nat): seq<real>
    requires n <= |records|
  {
    if n == 0 then records else records[|records| - n..]
  }

  function Smooth(c: Config, estimate: real, previous: real): real {
    estimate * c.smoothing + (1.0 - c.smoothing) * previous
  }

  /** Without a single rate the mean is not a number, and cutting it to an integer raises. */
  predicate Raises(c: Config, records: seq<real>) {
    records == [] && c.minimumStep <= 0
  }

  /** Whether the flow has enough new values, and an estimate that is news. */
  predicate Takes(c: Config, s: Slot, records: seq<real>) {
    && s.cutoff <= |records| && records != []
    && |records| - s.cutoff >= c.minimumStep
    && s.threshold != Some(c.estimate(LastValues(records, |records| - s.cutoff)))
  }

  function UpdateSlot(c: Config, s: Slot, records: seq<real>): Slot {
    if !Takes(c, s, records) then s
    else
      var n := |records|;
      var e := c.estimate(LastValues(records, n - s.cutoff));
      Slot(Some(if s.threshold.Some? then Smooth(c, e, s.threshold.value) else e), n,
           s.log + [Commit(if s.cutoff == n then 0 else s.cutoff, n, e)])
  }

  // ----- What every run keeps -----

  /** The committed windows follow each other from zero to `n`, without a gap or an overlap. */
  ghost predicate Tile(log: seq<Commit>, n: nat) {
    if log == [] then n == 0
    else
      var last := log[|log| - 1];
      last.lo < last.hi == n && Tile(log[..|log| - 1], last.lo)
  }

  /** Each commit holds the estimate of its own window. */
  ghost predicate Estimates(c: Config, log: seq<Commit>, records: seq<real>) {
    forall i | 0 <= i < |log| ::
      log[i].lo <= log[i].hi <= |records| && log[i].value == c.estimate(records[log[i].lo..log[i].hi])
  }

  /** The cutoff is where the last window ended. */
  ghost predicate EndsAtCutoff(s: Slot) {
    if s.log == [] then s.cutoff == 0 else 0 < s.log[|s.log| - 1].hi == s.cutoff
  }

  /** The values that may bound a threshold: the one loaded at the start, and all estimates. */
  ghost predicate Bounding(initial: Option<real>, log: seq<Commit>, x: real) {
    initial == Some(x) || exists i | 0 <= i < |log| :: log[i].value == x
  }

  ghost predicate Bounded(s: Slot, initial: Option<real>) {
    s.threshold.Some? ==> exists a, b ::
      Bounding(initial, s.log, a) && Bounding(initial, s.log, b) && a <= s.threshold.value <= b
  }

  ghost predicate Sound(c: Config, s: Slot, records: seq<real>, initial: Option<real>) {
    && s.cutoff <= |records|
    && EndsAtCutoff(s)
    && Estimates(c, s.log, records)
    && (0.0 <= c.smoothing <= 1.0 ==> Bounded(s, initial))
    && (1 <= c.minimumStep ==> Tile(s.log, s.cutoff))
    && (s.threshold.None? <==> initial.None? && s.log == [])
  }

  lemma StartIsSound(c: Config, records: seq<real>, initial: Option<real>)
    ensures Sound(c, Slot(initial, 0, []), records, initial)
  {
    if initial.Some? {
      assert Bounding(initial, [], initial.value) && initial.value <= initial.value;
    }
  }

  lemma SmoothIsBetween(c: Config, e: real, previous: real)
    requires 0.0 <= c.smoothing <= 1.0
    ensures (e <= previous ==> e <= Smooth(c, e, previous) <= previous)
    ensures (previous <= e ==> previous <= Smooth(c, e, previous) <= e)
  {
    var d := e - previous;
    assert Smooth(c, e, previous) == previous + d * c.smoothing;
    if d >= 0.0 {
      assert 0.0 <= d * c.smoothing <= d;
    } else {
      assert d <= d * c.smoothing <= 0.0;
    }
  }

  lemma BoundingGrows(initial: Option<real>, log: seq<Commit>, next: Commit, x: real)
    requires Bounding(initial, log, x)
    ensures Bounding(initial, log + [next], x)
  {
    if initial != Some(x) {
      var i :| 0 <= i < |log| && log[i].value == x;
      assert (log + [next])[i].value == x;
    }
  }

  lemma BoundsAfterUpdate(c: Config, s: Slot, records: seq<real>, initial: Option<real>)
    requires Bounded(s, initial) && 0.0 <= c.smoothing <= 1.0 && Takes(c, s, records)
    ensures Bounded(UpdateSlot(c, s, records), initial)
  {
    var s' := UpdateSlot(c, s, records);
    var next := s'.log[|s.log|];
    var e := next.value;
    assert s'.log[|s.log|].value == e && Bounding(initial, s'.log, e);
    if s.threshold.Some? {
      var a, b :| Bounding(initial, s.log, a) && Bounding(initial, s.log, b) && a <= s.threshold.value <= b;
      BoundingGrows(initial, s.log, next, a);
      BoundingGrows(initial, s.log, next, b);
      hide Smooth;
      SmoothIsBetween(c, e, s.threshold.value);
      var lo, hi := if e <= a then e else a, if e <= b then b else e;
      assert Bounding(initial, s'.log, lo) && Bounding(initial, s'.log, hi) && lo <= s'.threshold.value <= hi;
    }
  }

  lemma EstimatesAfterUpdate(c: Config, s: Slot, records: seq<real>)
    requires Estimates(c, s.log, records) && Takes(c, s, records)
    ensures Estimates(c, UpdateSlot(c, s, records).log, records)
  {
    var n := |records|;
    var lo := if s.cutoff == n then 0 else s.cutoff;
    assert LastValues(records, n - s.cutoff) == records[lo..n];
  }

  /** Exactly: an update goes on tiling the rates if and only if there are new ones to take. */
  lemma StaysTiledIff(c: Config, s: Slot, records: seq<real>)
    requires EndsAtCutoff(s) && Tile(s.log, s.cutoff) && Takes(c, s, records)
    ensures Tile(UpdateSlot(c, s, records).log, UpdateSlot(c, s, records).cutoff) <==> s.cutoff < |records|
  {
    assert UpdateSlot(c, s, records).log[..|s.log|] == s.log;
  }

  /** An overlap is never undone. */
  lemma StaysUntiled(c: Config, s: Slot, records: seq<real>)
    requires EndsAtCutoff(s) && !Tile(s.log, s.cutoff) && Takes(c, s, records)
    ensures !Tile(UpdateSlot(c, s, records).log, UpdateSlot(c, s, records).cutoff)
  {
    assert UpdateSlot(c, s, records).log[..|s.log|] == s.log;
  }

  lemma UpdateKeepsSound(c: Config, s: Slot, records: seq<real>, initial: Option<real>)
    requires Sound(c, s, records, initial)
    ensures s.cutoff <= |records| && Sound(c, UpdateSlot(c, s, records), records, initial)
  {
    if Takes(c, s, records) {
      EstimatesAfterUpdate(c, s, records);
      if 0.0 <= c.smoothing <= 1.0 {
        BoundsAfterUpdate(c, s, records, initial);
      }
      if 1 <= c.minimumStep {
        StaysTiledIff(c, s, records);
      }
    }
  }

  /** The rates of a flow only grow at the end, which leaves all windows as they are. */
  lemma GrowthKeepsSound(c: Config, s: Slot, records: seq<real>, grown: seq<real>, initial: Option<real>)
    requires Sound(c, s, records, initial) && records <= grown
    ensures Sound(c, s, grown, initial)
  {
    forall i | 0 <= i < |s.log|
      ensures grown[s.log[i].lo..s.log[i].hi] == records[s.log[i].lo..s.log[i].hi]
    {
    }
  }

  /** The new values of a flow; with none, all its values stand in for them. */
  ghost function Window(s: Slot, records: seq<real>): seq<real> {
    if s.cutoff < |records| then records[s.cutoff..] else records
  }

  /**
   * An update changes a flow exactly if there are enough new values and their estimate is not the
   * threshold already. All values are then used up, and the threshold goes the smoothed part of
   * the way to the estimate, or all of it if there was none.
   */
  lemma UpdateTakesIff(c: Config, s: Slot, records: seq<real>)
    requires s.cutoff <= |records|
    ensures var e, after := c.estimate(Window(s, records)), UpdateSlot(c, s, records);
            && (after != s <==> records != [] && |records| >= s.cutoff + c.minimumStep && s.threshold != Some(e))
            && (after != s ==>
                  && after.cutoff == |records| && |after.log| == |s.log| + 1 && after.log[|s.log|].value == e
                  && after.threshold.Some?
                  && (s.threshold.None? ==> after.threshold.value == e)
                  && (s.threshold.Some? ==>
                        after.threshold.value - s.threshold.value == (e - s.threshold.value) * c.smoothing))
  {
    assert records[0..] == records;
    if s.threshold.Some? {
      SmoothMoves(c, c.estimate(Window(s, records)), s.threshold.value);
    }
    hide Smooth;
  }

  lemma SmoothMoves(c: Config, e: real, previous: real)
    ensures Smooth(c, e, previous) - previous == (e - previous) * c.smoothing
  {
  }

  /** The whole number next to a value, on the side of zero. */
  ghost predicate CutTo(x: real, n: int) {
    if x < 0.0 then n as real - 1.0 < x <= n as real else n as real <= x < n as real + 1.0
  }

  lemma TruncateCuts(x: real)
    ensures CutTo(x, Truncate(x))
  {
  }

  /**
   * A request is sent exactly if the flow has changed: it adds a threshold for the first window
   * of a flow without a loaded one, updates it in all other cases, and carries the new value.
   */
  ghost predicate Sends(posts: seq<Post>, h: FlowHash, before: Slot, after: Slot, initial: Option<real>) {
    && (posts == [] <==> after == before)
    && (after != before ==>
          && |posts| == 1 && posts[0].hash == h && after.threshold.Some?
          && (posts[0].isNew <==> initial.None? && before.log == [])
          && CutTo(after.threshold.value, posts[0].threshold))
  }

  lemma PostSends(c: Config, h: FlowHash, s: Slot, records: seq<real>, initial: Option<real>)
    requires Sound(c, s, records, initial)
    ensures Sends(PostFor(c, h, s, records), h, s, UpdateSlot(c, s, records), initial)
  {
    hide Truncate, CutTo, Smooth, Tile, Estimates, Bounded, EndsAtCutoff;
    if Takes(c, s, records) {
      TruncateCuts(UpdateSlot(c, s, records).threshold.value);
    }
  }

  // ----- Runs of one flow -----

  datatype Step = Grow(more: seq<real>) | Update

  function RatesAfter(steps: seq<Step>): seq<real> {
    if steps == [] then []
    else
      var last := steps[|steps| - 1];
      RatesAfter(steps[..|steps| - 1]) + if last.Grow? then last.more else []
  }

  function SlotAfter(c: Config, initial: Option<real>, steps: seq<Step>): Slot {
    if steps == [] then Slot(initial, 0, [])
    else
      var front := steps[..|steps| - 1];
      var s := SlotAfter(c, initial, front);
      if steps[|steps| - 1].Grow? then s else UpdateSlot(c, s, RatesAfter(front))
  }

  /** The i-th step takes values although there are no new ones. */
  predicate Repeats(c: Config, initial: Option<real>, steps: seq<Step>, i: nat)
    requires i < |steps|
  {
    var s, records := SlotAfter(c, initial, steps[..i]), RatesAfter(steps[..i]);
    steps[i].Update? && Takes(c, s, records) && s.cutoff == |records|
  }

  /** For whatever settings, every run keeps what does not depend on them, and what does if they suit. */
  lemma {:induction false} RunsAreSound(c: Config, initial: Option<real>, steps: seq<Step>)
    ensures Sound(c, SlotAfter(c, initial, steps), RatesAfter(steps), initial)
  {
    hide Sound, UpdateSlot;
    if steps == [] {
      StartIsSound(c, [], initial);
    } else {
      var front := steps[..|steps| - 1];
      var s, records := SlotAfter(c, initial, front), RatesAfter(front);
      RunsAreSound(c, initial, front);
      if steps[|steps| - 1].Grow? {
        GrowthKeepsSound(c, s, records, RatesAfter(steps), initial);
      } else {
        UpdateKeepsSound(c, s, records, initial);
        assert RatesAfter(steps) == records;
      }
    }
  }

  /** The windows of a run tile its rates if and only if no update took values without new ones. */
  lemma {:induction false} RunTilesIff(c: Config, initial: Option<real>, steps: seq<Step>)
    ensures Tile(SlotAfter(c, initial, steps).log, SlotAfter(c, initial, steps).cutoff)
       <==> forall i | 0 <= i < |steps| :: !Repeats(c, initial, steps, i)
  {
    if steps != [] {
      hide UpdateSlot, Tile;
      var n := |steps| - 1;
      var front := steps[..n];
      RunTilesIff(c, initial, front);
      forall i | 0 <= i < n ensures Repeats(c, initial, front, i) == Repeats(c, initial, steps, i) {
        assert front[..i] == steps[..i];
      }
      assert (forall i | 0 <= i < |steps| :: !Repeats(c, initial, steps, i)) <==>
               (forall i | 0 <= i < n :: !Repeats(c, initial, front, i)) && !Repeats(c, initial, steps, n);
      UpdateTilesIff(c, SlotAfter(c, initial, front), RatesAfter(front), initial, front);
    }
  }

  lemma UpdateTilesIff(c: Config, s: Slot, records: seq<real>, initial: Option<real>, front: seq<Step>)
    requires s == SlotAfter(c, initial, front) && records == RatesAfter(front)
    ensures Tile(UpdateSlot(c, s, records).log, UpdateSlot(c, s, records).cutoff)
       <==> Tile(s.log, s.cutoff) && !(Takes(c, s, records) && s.cutoff == |records|)
  {
    RunsAreSound(c, initial, front);
    hide SlotAfter, RatesAfter, Tile, UpdateSlot, Takes;
    NothingTaken(c, s, records);
    if !Takes(c, s, records) {
    } else if Tile(s.log, s.cutoff) {
      StaysTiledIff(c, s, records);
    } else {
      StaysUntiled(c, s, records);
    }
  }

  lemma NothingTaken(c: Config, s: Slot, records: seq<real>)
    ensures Raises(c, records) ==> !Takes(c, s, records)
    ensures !Takes(c, s, records) ==> UpdateSlot(c, s, records) == s
  {
  }

  /** Nothing is logged exactly if no update took anything. */
  lemma {:induction false} NothingLoggedIff(c: Config, initial: Option<real>, steps: seq<Step>)
    ensures SlotAfter(c, initial, steps).log == [] <==> forall i | 0 <= i < |steps| :: !TakesAt(c, initial, steps, i)
  {
    if steps != [] {
      var n := |steps| - 1;
      NothingLoggedIff(c, initial, steps[..n]);
      forall i | 0 <= i < n ensures TakesAt(c, initial, steps[..n], i) == TakesAt(c, initial, steps, i) {
        assert steps[..n][..i] == steps[..i];
      }
      hide Takes;
      assert (forall i | 0 <= i < |steps| :: !TakesAt(c, initial, steps, i)) <==>
               (forall i | 0 <= i < n :: !TakesAt(c, initial, steps[..n], i)) && !TakesAt(c, initial, steps, n);
    }
  }

  /** The i-th step takes new values into the threshold. */
  predicate TakesAt(c: Config, initial: Option<real>, steps: seq<Step>, i: nat)
    requires i < |steps|
  {
    steps[i].Update? && Takes(c, SlotAfter(c, initial, steps[..i]), RatesAfter(steps[..i]))
  }

  /** Over runs: a threshold is added at most once, by the first update that takes anything. */
  lemma AddsIffFirst(c: Config, h: FlowHash, initial: Option<real>, steps: seq<Step>)
    ensures var s, records := SlotAfter(c, initial, steps), RatesAfter(steps);
            (exists p :: p in PostFor(c, h, s, records) && p.isNew) <==>
              && initial.None? && Takes(c, s, records)
              && forall i | 0 <= i < |steps| :: !TakesAt(c, initial, steps, i)
  {
    RunsAreSound(c, initial, steps);
    NothingLoggedIff(c, initial, steps);
    hide SlotAfter, RatesAfter, TakesAt, Takes, UpdateSlot, Truncate;
    var s, records := SlotAfter(c, initial, steps), RatesAfter(steps);
    if Takes(c, s, records) {
      assert PostFor(c, h, s, records)[0] in PostFor(c, h, s, records);
    }
  }

  /**
   * The shortest such run: one rate, then two updates. The same window is taken twice exactly if
   * the step is zero or less, the estimate was news, and smoothing keeps some of the old value.
   */
  lemma TwoUpdatesOverlapIff(c: Config, t: real, x: real)
    ensures var y := c.estimate([x]);
            SlotAfter(c, Some(t), [Grow([x]), Update, Update]).log == [Commit(0, 1, y), Commit(0, 1, y)]
            <==> c.minimumStep <= 0 && t != y && c.smoothing != 1.0
  {
    hide Smooth, SlotAfter, Tile;
    AfterTwoUpdates(c, Some(t), x);
    SmoothedIsEstimateIff(c, c.estimate([x]), t);
    assert [x][0..] == [x];
  }

  lemma AfterTwoUpdates(c: Config, initial: Option<real>, x: real)
    ensures SlotAfter(c, initial, [Grow([x]), Update, Update])
         == UpdateSlot(c, UpdateSlot(c, Slot(initial, 0, []), [x]), [x])
  {
    hide UpdateSlot;
    var run := [Grow([x]), Update, Update];
    assert run[..2][..1] == run[..1] && run[..1][..0] == [];
    assert RatesAfter(run[..1]) == [] + [x] == [x];
    assert SlotAfter(c, initial, run[..1]) == Slot(initial, 0, []);
    assert RatesAfter(run[..2]) == RatesAfter(run[..1]) + [] == [x];
    assert SlotAfter(c, initial, run[..2]) == UpdateSlot(c, Slot(initial, 0, []), [x]);
  }

  lemma SmoothedIsEstimateIff(c: Config, e: real, previous: real)
    ensures Smooth(c, e, previous) == e <==> e == previous || c.smoothing == 1.0
  {
    assert Smooth(c, e, previous) - e == (1.0 - c.smoothing) * (previous - e);
    ProductIsZeroIff(1.0 - c.smoothing, previous - e);
  }

  lemma ProductIsZeroIff(a: real, b: real)
    ensures a * b == 0.0 <==> a == 0.0 || b == 0.0
  {
    if a != 0.0 && a * b == 0.0 {
      assert b == a * b / a;
    }
  }

  // ----- All flows -----

  /** The slots after some of the flows were updated, each against its own rates. */
  function Advance(c: Config, slots: map<FlowHash, Slot>, rates: map<FlowHash, seq<real>>, order: seq<FlowHash>):
    map<FlowHash, Slot>
    requires slots.Keys == rates.Keys
  {
    map h | h in slots :: if h in order then UpdateSlot(c, slots[h], rates[h]) else slots[h]
  }

  /** The request that an update of one flow sends, if it sends one. */
  function PostFor(c: Config, h: FlowHash, s: Slot, records: seq<real>): seq<Post> {
    if Takes(c, s, records) then [Post(h, s.threshold.None?, Truncate(UpdateSlot(c, s, records).threshold.value))]
    else []
  }

  function PostsInOrder(c: Config, slots: map<FlowHash, Slot>, rates: map<FlowHash, seq<real>>, order: seq<FlowHash>):
    seq<Post>
    requires slots.Keys == rates.Keys && forall h | h in order :: h in slots
  {
    if order == [] then []
    else
      var h := order[|order| - 1];
      PostsInOrder(c, slots, rates, order[..|order| - 1]) + PostFor(c, h, slots[h], rates[h])
  }

  lemma OneMoreFlow(c: Config, slots: map<FlowHash, Slot>, rates: map<FlowHash, seq<real>>, order: seq<FlowHash>,
                    h: FlowHash)
    requires slots.Keys == rates.Keys && h in slots && h !in order && forall k | k in order :: k in slots
    ensures Advance(c, slots, rates, order)[h] == slots[h]
    ensures Advance(c, slots, rates, order + [h])
         == Advance(c, slots, rates, order)[h := UpdateSlot(c, slots[h], rates[h])]
    ensures PostsInOrder(c, slots, rates, order + [h])
         == PostsInOrder(c, slots, rates, order) + PostFor(c, h, slots[h], rates[h])
  {
    hide UpdateSlot, PostFor;
    assert (order + [h])[..|order|] == order;
  }

  class Updater {
    const config: Config

    var thresholds: map<FlowHash, real>
    var flows: map<FlowHash, Flow>

    ghost const initial: map<FlowHash, real>  // the thresholds fetched at the start
    ghost var logs: map<FlowHash, seq<Commit>>

    ghost predicate Valid()
      reads this, flows.Values
    {
      && Separate()
      && (forall h | h in flows :: flows[h].Valid() && IsSound(h))
      && (forall h | h !in flows :: ThresholdOf(h) == InitialOf(h) && LogOf(h) == [])
    }

    ghost predicate Separate()
      reads this`flows
    {
      forall h, k | h in flows && k in flows && h != k :: flows[h] != flows[k]
    }

    ghost predicate IsSound(h: FlowHash)
      requires h in flows
      reads this, flows[h]
    {
      Sound(config, SlotOf(h), flows[h].deltaBpsRecords, InitialOf(h))
    }

    ghost function InitialOf(h: FlowHash): Option<real> {
      if h in initial then Some(initial[h]) else None
    }

    function FlowOf(h: FlowHash): Flow
      requires h in flows
      reads this`flows
    {
      flows[h]
    }

    function ThresholdOf(h: FlowHash): Option<real>
      reads this`thresholds
    {
      if h in thresholds then Some(thresholds[h]) else None
    }

    ghost function LogOf(h: FlowHash): seq<Commit>
      reads this`logs
    {
      if h in logs then logs[h] else []
    }

    ghost function SlotOf(h: FlowHash): Slot
      requires h in flows
      reads this`thresholds, this`flows, this`logs, FlowOf(h)`cutoff
    {
      Slot(ThresholdOf(h), flows[h].cutoff, LogOf(h))
    }

    ghost function Slots(): (slots: map<FlowHash, Slot>)
      reads this, flows.Values
      ensures slots.Keys == flows.Keys
    {
      map h | h in flows :: SlotOf(h)
    }

    ghost function Rates(): (rates: map<FlowHash, seq<real>>)
      reads this`flows, flows.Values
      ensures rates.Keys == flows.Keys
    {
      map h | h in flows :: flows[h].deltaBpsRecords
    }

    constructor (config: Config, fetched: map<FlowHash, real>)
      ensures Valid() && this.config == config && thresholds == fetched && initial == fetched
      ensures flows == map[]
    {
      this.config, thresholds, flows := config, fetched, map[];
      initial, logs := fetched, map[];
    }

    /** A record: of a known flow, or of a new one that is let in with it. */
    method Observe(h: FlowHash, start: real, r: Record)
      requires Valid() && 0.0 <= r.end
      modifies this`flows
      modifies if h in flows then {flows[h]} else {}
      ensures Valid() && h in flows && flows == old(flows)[h := flows[h]]
      ensures h in old(flows) ==> flows[h] == old(flows[h]) && flows[h].history == old(flows[h].history) + [r]
      ensures h !in old(flows) ==>
                fresh(flows[h]) && flows[h].history == [r] && flows[h].origin == Origin(start, r.octets)
      ensures h in old(flows) ==> SlotOf(h) == old(SlotOf(h))
    {
      hide Updater.Valid;
      if h in flows {
        ObserveKnown(h, r);
      } else {
        ObserveNew(h, start, r);
      }
    }

    method ObserveNew(h: FlowHash, start: real, r: Record)
      requires Valid() && h !in flows && 0.0 <= r.end
      modifies this`flows
      ensures Valid() && h in flows && flows == old(flows)[h := flows[h]]
      ensures fresh(flows[h]) && flows[h].history == [r] && flows[h].origin == Origin(start, r.octets)
    {
      hide Sound, TimesAgree, RatesAgree, IdleAgrees;
      var flow := new Flow(start, r.octets);
      flow.Update(r);
      StartIsSound(config, flow.deltaBpsRecords, InitialOf(h));
      flows := flows[h := flow];
      forall k | k in flows ensures flows[k].Valid() && IsSound(k) {
        if k != h {
          assert old(IsSound(k) && flows[k].Valid());
        }
      }
    }

    method ObserveKnown(h: FlowHash, r: Record)
      requires Valid() && h in flows && 0.0 <= r.end
      modifies FlowOf(h)
      ensures Valid() && flows[h].history == old(flows[h].history) + [r] && SlotOf(h) == old(SlotOf(h))
    {
      hide Sound, TimesAgree, RatesAgree, IdleAgrees;
      ghost var records := flows[h].deltaBpsRecords;
      flows[h].Update(r);
      GrowthKeepsSound(config, SlotOf(h), records, flows[h].deltaBpsRecords, InitialOf(h));
    }

    /** The body of the loop over the flows. */
    method TakeIn(h: FlowHash) returns (posts: seq<Post>, raised: bool)
      requires h in flows && flows[h].Valid() && flows[h].cutoff <= |flows[h].deltaBpsRecords|
      modifies this`thresholds, this`logs, FlowOf(h)`cutoff
      ensures raised == Raises(config, flows[h].deltaBpsRecords)
      ensures SlotOf(h) == UpdateSlot(config, old(SlotOf(h)), flows[h].deltaBpsRecords)
      ensures posts == PostFor(config, h, old(SlotOf(h)), flows[h].deltaBpsRecords)
      ensures forall k | k != h :: ThresholdOf(k) == old(ThresholdOf(k)) && LogOf(k) == old(LogOf(k))
      ensures flows[h].Valid()
    {
      hide Smooth, Truncate, TimesAgree, RatesAgree, IdleAgrees;
      var flow := flows[h];
      var newValues := |flow.deltaBpsRecords| - flow.cutoff;
      posts, raised := [], false;
      if newValues >= config.minimumStep {
        if flow.deltaBpsRecords == [] {
          return [], true;
        }
        var estimate := config.estimate(LastValues(flow.deltaBpsRecords, newValues));
        var avgBps := estimate;
        var isNew := false;
        if h in thresholds && thresholds[h] != avgBps {
          avgBps := Smooth(config, avgBps, thresholds[h]);
        } else if h in thresholds && thresholds[h] == avgBps {
          return;
        } else {
          isNew := true;
        }
        posts := [Post(h, isNew, Truncate(avgBps))];
        logs := logs[h := LogOf(h) +
                          [Commit(if newValues == 0 then 0 else flow.cutoff, |flow.deltaBpsRecords|, estimate)]];
        thresholds := thresholds[h := avgBps];
        flow.cutoff := |flow.deltaBpsRecords|;
      }
    }

    /** The loop body keeps every other flow as it is, and all of them sound. */
    method TakeInOne(h: FlowHash) returns (posts: seq<Post>, raised: bool)
      requires Valid() && h in flows
      modifies this`thresholds, this`logs, FlowOf(h)`cutoff
      ensures Valid() && raised == Raises(config, flows[h].deltaBpsRecords)
      ensures SlotOf(h) == UpdateSlot(config, old(SlotOf(h)), flows[h].deltaBpsRecords)
      ensures forall k | k in flows && k != h :: SlotOf(k) == old(SlotOf(k))
      ensures posts == PostFor(config, h, old(SlotOf(h)), flows[h].deltaBpsRecords)
    {
      hide UpdateSlot, PostFor, Sound, Raises, Flow.Valid;
      assert IsSound(h);
      UpdateKeepsSound(config, SlotOf(h), flows[h].deltaBpsRecords, InitialOf(h));
      posts, raised := TakeIn(h);
      forall k | k in flows ensures flows[k].Valid() && IsSound(k) {
        if k != h {
          assert old(IsSound(k) && flows[k].Valid());
        }
      }
    }

    lemma FlowSends(h: FlowHash)
      requires Valid() && h in flows
      ensures Sends(PostFor(config, h, SlotOf(h), flows[h].deltaBpsRecords), h, SlotOf(h),
                    UpdateSlot(config, SlotOf(h), flows[h].deltaBpsRecords), InitialOf(h))
    {
      hide UpdateSlot, PostFor, Sends, Sound, Flow.Valid;
      assert IsSound(h);
      PostSends(config, h, SlotOf(h), flows[h].deltaBpsRecords, InitialOf(h));
    }

    /** One flow: compares the estimate of the new values with the threshold, and takes it in. */
    method UpdateThreshold(h: FlowHash) returns (posts: seq<Post>, raised: bool)
      requires Valid() && h in flows
      modifies this`thresholds, this`logs, FlowOf(h)`cutoff
      ensures Valid() && raised == Raises(config, Rates()[h])
      ensures Slots() == old(Slots())[h := UpdateSlot(config, old(Slots()[h]), Rates()[h])] && Rates() == old(Rates())
      ensures posts == PostFor(config, h, old(Slots()[h]), Rates()[h])
      ensures Sends(posts, h, old(Slots()[h]), Slots()[h], InitialOf(h))
      ensures raised ==> Slots() == old(Slots())
    {
      hide UpdateSlot, PostFor, Raises, Updater.Valid, Sends;
      NothingTaken(config, SlotOf(h), flows[h].deltaBpsRecords);
      FlowSends(h);
      posts, raised := TakeInOne(h);
    }

    /**
     * The flows in the order in which the dictionary yields them, up to one that raises. `order`
     * lists those that were updated; each sent its own request, if it had one to send.
     */
    method UpdateThresholds() returns (posts: seq<Post>, raised: bool, ghost order: seq<FlowHash>)
      requires Valid()
      modifies this`thresholds, this`logs, flows.Values`cutoff
      ensures Valid() && Rates() == old(Rates())
      ensures forall h | h in order :: h in flows
      ensures forall i, j | 0 <= i < j < |order| :: order[i] != order[j]
      ensures Slots() == Advance(config, old(Slots()), Rates(), order)
      ensures posts == PostsInOrder(config, old(Slots()), Rates(), order)
      ensures raised <==> exists h :: h in flows && Raises(config, Rates()[h])
      ensures !raised ==> forall h | h in flows :: h in order
    {
      hide UpdateSlot, PostFor, Advance, PostsInOrder, Raises, Updater.Valid, Updater.Slots, Updater.Rates;
      posts, order := [], [];
      var todo := flows.Keys;
      NoFlow(config, Slots(), Rates());
      while todo != {}
        invariant todo <= flows.Keys
        invariant Valid() && Rates() == old(Rates())
        invariant forall h | h in order :: h in flows
        invariant forall i, j | 0 <= i < j < |order| :: order[i] != order[j]
        invariant forall h | h in flows :: h in order <==> h !in todo
        invariant Slots() == Advance(config, old(Slots()), Rates(), order)
        invariant posts == PostsInOrder(config, old(Slots()), Rates(), order)
        invariant forall h | h in flows && h !in todo :: !Raises(config, Rates()[h])
      {
        var h :| h in todo;
        var more;
        more, raised := UpdateThreshold(h);
        if raised {
          return;
        }
        OneMoreFlow(config, old(Slots()), Rates(), order, h);
        posts, order := posts + more, order + [h];
        todo := todo - {h};
      }
      raised := false;
    }
  }

  lemma NoFlow(c: Config, slots: map<FlowHash, Slot>, rates: map<FlowHash, seq<real>>)
    requires slots.Keys == rates.Keys
    ensures Advance(c, slots, rates, []) == slots && PostsInOrder(c, slots, rates, []) == []
  {
  }
}
