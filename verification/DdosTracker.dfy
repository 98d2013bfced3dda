/**
 * Counting the sources of traffic to each destination over a sliding window, against the whole
 * history of sightings and clean-ups.
 */
module DdosTracker {
  import opened Options

  type Address = string

  datatype Source = Source(address: Address, port: int)

  /** An IPFIX record as far as the application looks at it; any of the keys may be missing. */
  datatype Message = Message(
    destinationIPv4Address: Option<Address>, sourceIPv4Address: Option<Address>, sourceTransportPort: Option<int>)

  datatype Event =
    | Sighting(dst: Address, source: Source, at: real)
    | CleanUp(at: real)

  datatype Outcome = Done | KeyError

  // ----- The history, and what of it is in the window -----

  /** The sources of a destination with the time of their last sighting, after these events. */
  function Window(period: real, h: seq<Event>, dst: Address): map<Source, real> {
    if h == [] then map[]
    else
      var window := Window(period, h[..|h| - 1], dst);
      match h[|h| - 1]
      case Sighting(d, source, at) => if d == dst then window[source := at] else window
      case CleanUp(at) => Recent(period, window, at)
  }

  /** What a clean-up leaves. */
  function Recent(period: real, window: map<Source, real>, now: real): map<Source, real> {
    map s | s in window && now - window[s] <= period :: window[s]
  }

  /** The destinations for which a mirror was installed, once for each sighting too many. */
  function Installs(period: real, threshold: int, h: seq<Event>): seq<Address> {
    if h == [] then []
    else
      var earlier, last := Installs(period, threshold, h[..|h| - 1]), h[|h| - 1];
      if last.Sighting? && |Window(period, h, last.dst)| > threshold then earlier + [last.dst] else earlier
  }

  predicate Sees(e: Event, dst: Address, source: Source) {
    e.Sighting? && e.dst == dst && e.source == source
  }

  /** The last sighting of a source towards a destination is the i-th event. */
  ghost predicate LastSighting(h: seq<Event>, dst: Address, source: Source, i: nat) {
    && i < |h| && Sees(h[i], dst, source)
    && forall j | i < j < |h| :: !Sees(h[j], dst, source)
  }

  /** No clean-up after the i-th event found that event too old. */
  ghost predicate Outlives(period: real, h: seq<Event>, i: nat)
    requires i < |h|
  {
    forall j | i < j < |h| && h[j].CleanUp? :: h[j].at - h[i].at <= period
  }

  predicate NonDecreasing(h: seq<Event>) {
    forall i, j | 0 <= i <= j < |h| :: h[i].at <= h[j].at
  }

  /**
   * A source is in the window exactly if its last sighting outlived every later clean-up, and is
   * recorded with the time of that sighting: for whatever the clock showed.
   */
  lemma {:induction false} WindowHoldsLastSightings(period: real, h: seq<Event>, dst: Address, source: Source)
    ensures source in Window(period, h, dst) <==>
              exists i: nat {:trigger LastSighting(h, dst, source, i)} ::
                LastSighting(h, dst, source, i) && Outlives(period, h, i)
    ensures forall i: nat {:trigger LastSighting(h, dst, source, i)} ::
              source in Window(period, h, dst) && LastSighting(h, dst, source, i) ==>
                Window(period, h, dst)[source] == h[i].at
  {
    if h != [] {
      var n := |h| - 1;
      var front := h[..n];
      WindowHoldsLastSightings(period, front, dst, source);
      if Sees(h[n], dst, source) {
        assert LastSighting(h, dst, source, n) && Outlives(period, h, n);
      } else {
        forall i: nat ensures LastSighting(h, dst, source, i) <==> LastSighting(front, dst, source, i) {
          SightingIsEarlier(h, dst, source, i);
        }
        forall i: nat | LastSighting(front, dst, source, i)
          ensures Outlives(period, h, i) <==>
                    Outlives(period, front, i) && (h[n].CleanUp? ==> h[n].at - front[i].at <= period)
        {
          OutlivesOneMore(period, h, i);
        }
      }
    }
  }

  lemma SightingIsEarlier(h: seq<Event>, dst: Address, source: Source, i: nat)
    requires h != [] && !Sees(h[|h| - 1], dst, source)
    ensures LastSighting(h, dst, source, i) <==> LastSighting(h[..|h| - 1], dst, source, i)
  {
    var front := h[..|h| - 1];
    assert forall j | 0 <= j < |front| :: front[j] == h[j];
    if LastSighting(front, dst, source, i) {
      forall j | i < j < |h| ensures !Sees(h[j], dst, source) {
        assert j < |front| ==> front[j] == h[j];
      }
    }
  }

  lemma OutlivesOneMore(period: real, h: seq<Event>, i: nat)
    requires i < |h| - 1
    ensures Outlives(period, h, i) <==>
              && Outlives(period, h[..|h| - 1], i)
              && (h[|h| - 1].CleanUp? ==> h[|h| - 1].at - h[i].at <= period)
  {
    var front := h[..|h| - 1];
    if Outlives(period, h, i) {
      forall j | i < j < |front| && front[j].CleanUp? ensures front[j].at - front[i].at <= period {
        assert h[j].CleanUp?;
      }
    }
    if Outlives(period, front, i) && (h[|h| - 1].CleanUp? ==> h[|h| - 1].at - h[i].at <= period) {
      forall j | i < j < |h| && h[j].CleanUp? ensures h[j].at - h[i].at <= period {
        assert j < |front| ==> front[j].CleanUp?;
      }
    }
  }

  /** With a clock that never runs back: after a clean-up, exactly the sources last seen within the period. */
  lemma SlidingWindow(period: real, h: seq<Event>, dst: Address, source: Source)
    requires h != [] && h[|h| - 1].CleanUp? && NonDecreasing(h)
    ensures source in Window(period, h, dst) <==>
              exists i: nat {:trigger LastSighting(h, dst, source, i)} ::
                LastSighting(h, dst, source, i) && h[|h| - 1].at - h[i].at <= period
  {
    hide Window;
    WindowHoldsLastSightings(period, h, dst, source);
  }

  /** After a clean-up and some sightings: what survived it, and what was seen since. */
  lemma {:induction false} SurvivorsAndNewcomers(period: real, h: seq<Event>, since: seq<Event>, dst: Address)
    requires forall e | e in since :: e.Sighting?
    ensures Window(period, h + since, dst).Keys
         == Window(period, h, dst).Keys + (set e | e in since && e.dst == dst :: e.source)
    decreases |since|
  {
    if since == [] {
      assert h + since == h;
    } else {
      var front, last := since[..|since| - 1], since[|since| - 1];
      SurvivorsAndNewcomers(period, h, front, dst);
      assert (h + since)[..|h + since| - 1] == h + front;
      assert since == front + [last];
      assert last in since;
    }
  }

  /** One more event, for every destination and for the mirrors installed. */
  lemma EventAppended(period: real, threshold: int, h: seq<Event>, e: Event)
    ensures forall dst {:trigger Window(period, h + [e], dst)} ::
              Window(period, h + [e], dst) ==
              match e
              case Sighting(d, source, at) =>
                if d == dst then Window(period, h, dst)[source := at] else Window(period, h, dst)
              case CleanUp(at) => Recent(period, Window(period, h, dst), at)
    ensures Installs(period, threshold, h + [e]) ==
            if e.Sighting? && |Window(period, h + [e], e.dst)| > threshold
            then Installs(period, threshold, h) + [e.dst] else Installs(period, threshold, h)
  {
    assert (h + [e])[..|h|] == h;
  }

  // ----- Mirrors by position -----

  /** The source has been seen, and no clean-up since its last sighting found that too old. */
  ghost predicate Live(period: real, h: seq<Event>, dst: Address, source: Source) {
    exists i: nat {:trigger LastSighting(h, dst, source, i)} ::
      LastSighting(h, dst, source, i) && Outlives(period, h, i)
  }

  ghost predicate AllLive(period: real, h: seq<Event>, dst: Address, sources: set<Source>) {
    forall s {:trigger s in sources} | s in sources :: Live(period, h, dst, s)
  }

  /** There are more different live sources of the destination than the threshold. */
  ghost predicate Crowded(period: real, threshold: int, h: seq<Event>, dst: Address) {
    exists sources: set<Source> :: |sources| > threshold && AllLive(period, h, dst, sources)
  }

  lemma SubsetIsSmaller(a: set<Source>, b: set<Source>)
    requires a <= b
    ensures |a| <= |b|
  {
    assert b == a + (b - a);
  }

  lemma CrowdedIff(period: real, threshold: int, h: seq<Event>, dst: Address)
    ensures Crowded(period, threshold, h, dst) <==> |Window(period, h, dst)| > threshold
  {
    hide Window, LastSighting, Outlives;
    var keys := Window(period, h, dst).Keys;
    forall s ensures Live(period, h, dst, s) <==> s in keys {
      WindowHoldsLastSightings(period, h, dst, s);
    }
    assert |keys| == |Window(period, h, dst)|;
    if Crowded(period, threshold, h, dst) {
      var sources: set<Source> :| |sources| > threshold && AllLive(period, h, dst, sources);
      SubsetIsSmaller(sources, keys);
    }
  }

  /** These are the sightings after which their destination is crowded, in order. */
  ghost predicate MirrorsAt(period: real, threshold: int, h: seq<Event>, mirrors: seq<Address>, at: seq<nat>) {
    && |at| == |mirrors|
    && (forall k, l | 0 <= k < l < |at| :: at[k] < at[l])
    && (forall i: nat :: i in at <==> i < |h| && Tips(period, threshold, h, i))
    && (forall k | 0 <= k < |at| :: at[k] < |h| && h[at[k]].Sighting? && mirrors[k] == h[at[k]].dst)
  }

  ghost predicate Tips(period: real, threshold: int, h: seq<Event>, i: nat)
    requires i < |h|
  {
    h[i].Sighting? && Crowded(period, threshold, h[..i + 1], h[i].dst)
  }

  lemma MirrorsGrow(period: real, threshold: int, h: seq<Event>, mirrors: seq<Address>, at: seq<nat>)
    requires h != [] && MirrorsAt(period, threshold, h[..|h| - 1], mirrors, at)
    ensures var n := |h| - 1;
            if Tips(period, threshold, h, n) then h[n].Sighting?
              && MirrorsAt(period, threshold, h, mirrors + [h[n].dst], at + [n])
            else MirrorsAt(period, threshold, h, mirrors, at)
  {
    var n := |h| - 1;
    forall i: nat | i < n ensures Tips(period, threshold, h[..n], i) <==> Tips(period, threshold, h, i) {
      assert h[..n][..i + 1] == h[..i + 1];
    }
    assert Tips(period, threshold, h, n) ==> h[n].Sighting?;
    hide Tips;
    assert forall k | 0 <= k < |at| :: at[k] in at;
    var at' := at + [n];
    assert forall i: nat :: i in at' <==> i in at || i == n;
  }

  /** After any history the mirrors are those of the sightings that found their destination crowded. */
  lemma {:induction false} MirrorsByPosition(period: real, threshold: int, h: seq<Event>) returns (at: seq<nat>)
    ensures MirrorsAt(period, threshold, h, Installs(period, threshold, h), at)
  {
    hide Window, Crowded;
    at := [];
    if h != [] {
      var n := |h| - 1;
      at := MirrorsByPosition(period, threshold, h[..n]);
      MirrorsGrow(period, threshold, h, Installs(period, threshold, h[..n]), at);
      assert h[..n + 1] == h;
      if h[n].Sighting? {
        CrowdedIff(period, threshold, h, h[n].dst);
      }
      if Tips(period, threshold, h, n) {
        at := at + [n];
      }
    }
  }

  // ----- The application -----

  class IPFIXDDoS {
    const period: real
    const sourceCountThreshold: int

    var sourceCount: map<Address, map<Source, real>>
    var possibleAttacks: seq<Address>
    var mirrors: seq<Address>  // the calls of install_mirror

    ghost var history: seq<Event>

    ghost predicate Valid()
      reads this
    {
      && possibleAttacks == []
      && (forall d {:trigger Window(period, history, d)} ::
            Window(period, history, d) == if d in sourceCount then sourceCount[d] else map[])
      && mirrors == Installs(period, sourceCountThreshold, history)
    }

    constructor (period: real, threshold: int)
      ensures Valid() && history == [] && this.period == period && sourceCountThreshold == threshold
    {
      this.period, sourceCountThreshold := period, threshold;
      sourceCount, possibleAttacks, mirrors, history := map[], [], [], [];
    }

    /** Takes the sources out that were last seen too long ago; a destination stays, even if empty. */
    method SourcesCleanUp(now: real)
      requires Valid()
      modifies this
      ensures Valid() && history == old(history) + [CleanUp(now)]
      ensures sourceCount.Keys == old(sourceCount).Keys && mirrors == old(mirrors)
    {
      hide Window, Installs;
      var todo := sourceCount.Keys;
      while todo != {}
        invariant todo <= sourceCount.Keys == old(sourceCount).Keys
        invariant forall d | d in sourceCount ::
                    sourceCount[d] == if d in todo then old(sourceCount)[d]
                                      else Recent(period, old(sourceCount)[d], now)
        modifies this`sourceCount
      {
        var dst :| dst in todo;
        var left := CleanUpOne(sourceCount[dst], now);
        sourceCount := sourceCount[dst := left];
        todo := todo - {dst};
      }
      EventAppended(period, sourceCountThreshold, history, CleanUp(now));
      history := history + [CleanUp(now)];
    }

    method CleanUpOne(sources: map<Source, real>, now: real) returns (left: map<Source, real>)
      ensures left == Recent(period, sources, now)
    {
      left := sources;
      var todo := sources.Keys;
      while todo != {}
        invariant todo <= sources.Keys
        invariant left == map s | s in sources && (s in todo || now - sources[s] <= period) :: sources[s]
      {
        var src :| src in todo;
        var age := now - sources[src];
        if age > period {
          left := left - {src};
        }
        todo := todo - {src};
      }
    }

    /** One message at the time `now`; without a transport port it raises, without an address it is skipped. */
    method Track(message: Message, now: real) returns (o: Outcome)
      requires Valid()
      modifies this
      ensures Valid() && history == old(history) + Sightings([message], [now])
      ensures o == if Raises(message) then KeyError else Done
    {
      if message.destinationIPv4Address.None? || message.sourceIPv4Address.None? {
        return Done;
      }
      if message.sourceTransportPort.None? {
        return KeyError;
      }
      Count(message.destinationIPv4Address.value,
            Source(message.sourceIPv4Address.value, message.sourceTransportPort.value), now);
      return Done;
    }

    /** Mirrors the destination exactly when it now has more sources than the threshold. */
    method Count(dst: Address, source: Source, now: real)
      requires Valid()
      modifies this
      ensures Valid() && history == old(history) + [Sighting(dst, source, now)]
      ensures mirrors == if |Window(period, history, dst)| > sourceCountThreshold then old(mirrors) + [dst]
                         else old(mirrors)
    {
      hide Window, Installs;
      if dst !in sourceCount {
        sourceCount := sourceCount[dst := map[]];
      }
      sourceCount := sourceCount[dst := sourceCount[dst][source := now]];
      EventAppended(period, sourceCountThreshold, history, Sighting(dst, source, now));
      history := history + [Sighting(dst, source, now)];
      if |sourceCount[dst]| > sourceCountThreshold {
        if dst !in possibleAttacks {
          mirrors := mirrors + [dst];
        }
      }
    }

    /**
     * A batch of messages, each with the clock when it is its turn, after a clean-up. A message
     * that raises ends it.
     */
    method SourceTracker(messages: seq<Message>, start: real, clock: seq<real>) returns (o: Outcome)
      requires Valid() && |clock| == |messages|
      modifies this
      ensures Valid()
      ensures history == old(history) + [CleanUp(start)] + Sightings(messages, clock)
      ensures o.KeyError? <==> exists i | 0 <= i < |messages| :: Raises(messages[i])
    {
      hide Window, Installs, Sightings, Valid, Raises;
      SourcesCleanUp(start);
      assert Sightings(messages[..0], clock[..0]) == [] by {
        NoSightings();
      }
      ghost var cleaned := history;
      for i := 0 to |messages|
        invariant Valid() && history == cleaned + Sightings(messages[..i], clock[..i])
        invariant forall j | 0 <= j < i :: !Raises(messages[j])
      {
        o := Track(messages[i], clock[i]);
        SightingsGrow(messages, clock, i);
        if o.KeyError? {
          return;
        }
      }
      assert messages[..|messages|] == messages && clock[..|clock|] == clock;
      return Done;
    }
  }

  /** The application has installed exactly those mirrors. */
  lemma MirrorsOfRun(app: IPFIXDDoS) returns (at: seq<nat>)
    requires app.Valid()
    ensures MirrorsAt(app.period, app.sourceCountThreshold, app.history, app.mirrors, at)
  {
    hide MirrorsAt;
    at := MirrorsByPosition(app.period, app.sourceCountThreshold, app.history);
  }

  predicate Raises(m: Message) {
    m.destinationIPv4Address.Some? && m.sourceIPv4Address.Some? && m.sourceTransportPort.None?
  }

  predicate Counts(m: Message) {
    m.destinationIPv4Address.Some? && m.sourceIPv4Address.Some? && m.sourceTransportPort.Some?
  }

  /** The sightings in a batch, up to the first message that raises. */
  function Sightings(messages: seq<Message>, clock: seq<real>): (r: seq<Event>)
    requires |clock| == |messages|
    ensures forall e | e in r :: e.Sighting?
  {
    if messages == [] || Raises(messages[0]) then []
    else
      var m := messages[0];
      var first := if Counts(m) then
          [Sighting(m.destinationIPv4Address.value,
                    Source(m.sourceIPv4Address.value, m.sourceTransportPort.value), clock[0])]
        else [];
      first + Sightings(messages[1..], clock[1..])
  }

  lemma NoSightings()
    ensures Sightings([], []) == []
  {
  }

  lemma {:induction false} SightingsSplit(messages: seq<Message>, clock: seq<real>, i: nat)
    requires |clock| == |messages| && i <= |messages| && forall j | 0 <= j < i :: !Raises(messages[j])
    ensures Sightings(messages, clock) == Sightings(messages[..i], clock[..i]) + Sightings(messages[i..], clock[i..])
  {
    if i > 0 {
      SightingsSplit(messages[1..], clock[1..], i - 1);
      assert messages[..i][1..] == messages[1..][..i - 1] && clock[..i][1..] == clock[1..][..i - 1];
      assert messages[1..][i - 1..] == messages[i..] && clock[1..][i - 1..] == clock[i..];
      assert messages[..i][0] == messages[0] && clock[..i][0] == clock[0];
    } else {
      assert messages[0..] == messages && clock[0..] == clock;
    }
  }

  lemma SightingsGrow(messages: seq<Message>, clock: seq<real>, i: nat)
    requires |clock| == |messages| && i < |messages| && forall j | 0 <= j < i :: !Raises(messages[j])
    ensures Sightings(messages[..i + 1], clock[..i + 1])
         == Sightings(messages[..i], clock[..i]) + Sightings([messages[i]], [clock[i]])
    ensures Raises(messages[i]) ==>
              Sightings(messages, clock) == Sightings(messages[..i], clock[..i]) + Sightings([messages[i]], [clock[i]])
  {
    SightingsSplit(messages[..i + 1], clock[..i + 1], i);
    SightingsSplit(messages, clock, i);
    assert messages[..i + 1][..i] == messages[..i] && clock[..i + 1][..i] == clock[..i];
    assert messages[..i + 1][i..] == [messages[i]] && clock[..i + 1][i..] == [clock[i]];
  }

  /** The message names a destination, a source and its port, and none before it names the first two only. */
  ghost predicate IsCounted(messages: seq<Message>, i: nat)
    requires i < |messages|
  {
    && messages[i].destinationIPv4Address.Some? && messages[i].sourceIPv4Address.Some?
    && messages[i].sourceTransportPort.Some?
    && forall j | 0 <= j < i ::
         messages[j].destinationIPv4Address.None? || messages[j].sourceIPv4Address.None?
         || messages[j].sourceTransportPort.Some?
  }

  ghost predicate IsSightingOf(e: Event, m: Message, at: real) {
    && e.Sighting? && Some(e.dst) == m.destinationIPv4Address && Some(e.source.address) == m.sourceIPv4Address
    && Some(e.source.port) == m.sourceTransportPort && e.at == at
  }

  /** The sightings of a batch are those of its messages with all three keys, up to one without a port only. */
  ghost predicate SightingsAt(messages: seq<Message>, clock: seq<real>, sightings: seq<Event>, at: seq<nat>)
    requires |clock| == |messages|
  {
    && |at| == |sightings|
    && (forall k, l | 0 <= k < l < |at| :: at[k] < at[l])
    && (forall i: nat :: i in at <==> i < |messages| && IsCounted(messages, i))
    && (forall k | 0 <= k < |at| :: at[k] < |messages| && IsSightingOf(sightings[k], messages[at[k]], clock[at[k]]))
  }

  lemma SightingsOneMore(messages: seq<Message>, clock: seq<real>, sightings: seq<Event>, at: seq<nat>, e: Event)
    requires |clock| == |messages| && messages != []
    requires SightingsAt(messages[..|messages| - 1], clock[..|messages| - 1], sightings, at)
    ensures var n := |messages| - 1;
            && (!IsCounted(messages, n) ==> SightingsAt(messages, clock, sightings, at))
            && (IsCounted(messages, n) && IsSightingOf(e, messages[n], clock[n]) ==>
                  SightingsAt(messages, clock, sightings + [e], at + [n]))
  {
    var n := |messages| - 1;
    forall i: nat | i < n ensures IsCounted(messages[..n], i) <==> IsCounted(messages, i) {
      assert forall j | 0 <= j <= i :: messages[..n][j] == messages[j];
    }
    hide IsCounted, IsSightingOf;
    assert forall k | 0 <= k < |at| :: at[k] in at;
    var at' := at + [n];
    assert forall i: nat :: i in at' <==> i in at || i == n;
  }

  lemma {:induction false} SightingsByPosition(messages: seq<Message>, clock: seq<real>) returns (at: seq<nat>)
    requires |clock| == |messages|
    ensures SightingsAt(messages, clock, Sightings(messages, clock), at)
  {
    hide IsCounted, Sightings, SightingsAt;
    at := [];
    if messages == [] {
      NoSightingsAt();
      assert clock == [];
    } else {
      var n := |messages| - 1;
      at := SightingsByPosition(messages[..n], clock[..n]);
      LastOfBatch(messages, clock);
      var before := Sightings(messages[..n], clock[..n]);
      var e := if IsCounted(messages, n) then Sightings([messages[n]], [clock[n]])[0] else CleanUp(0.0);
      SightingsOneMore(messages, clock, before, at, e);
      if IsCounted(messages, n) {
        at := at + [n];
      }
    }
  }

  lemma NoSightingsAt()
    ensures SightingsAt([], [], Sightings([], []), [])
  {
  }

  /** What the last message adds to the sightings of a batch. */
  lemma LastOfBatch(messages: seq<Message>, clock: seq<real>)
    requires |clock| == |messages| && messages != []
    ensures var n := |messages| - 1;
            var before, own := Sightings(messages[..n], clock[..n]), Sightings([messages[n]], [clock[n]]);
            if IsCounted(messages, n) then
              && Sightings(messages, clock) == before + own && own != [] && own == [own[0]]
              && IsSightingOf(own[0], messages[n], clock[n])
            else Sightings(messages, clock) == before
  {
    var n := |messages| - 1;
    assert messages[..n + 1] == messages && clock[..n + 1] == clock;
    OwnSighting(messages[n], clock[n]);
    CountedIff(messages, n);
    hide Sightings, IsSightingOf, IsCounted, Counts, Raises;
    if i: nat :| i < n && Raises(messages[i]) {
      RaisingEndsBatch(messages, clock, n, i);
    } else {
      SightingsGrow(messages, clock, n);
    }
  }

  lemma CountedIff(messages: seq<Message>, n: nat)
    requires n < |messages|
    ensures IsCounted(messages, n) <==> Counts(messages[n]) && forall i | 0 <= i < n :: !Raises(messages[i])
    ensures Raises(messages[n]) ==> !Counts(messages[n])
  {
  }

  lemma OwnSighting(m: Message, at: real)
    ensures Counts(m) ==> |Sightings([m], [at])| == 1 && IsSightingOf(Sightings([m], [at])[0], m, at)
    ensures !Counts(m) ==> Sightings([m], [at]) == []
  {
    assert [m][1..] == [] && [at][1..] == [];
    NoSightings();
  }

  lemma {:induction false} RaisingEndsBatch(messages: seq<Message>, clock: seq<real>, n: nat, i: nat)
    requires |clock| == |messages| && i < n <= |messages| && Raises(messages[i])
    ensures Sightings(messages[..n], clock[..n]) == Sightings(messages, clock)
  {
    if i > 0 && !Raises(messages[0]) {
      RaisingEndsBatch(messages[1..], clock[1..], n - 1, i - 1);
      assert messages[..n][1..] == messages[1..][..n - 1] && clock[..n][1..] == clock[1..][..n - 1];
    }
  }
}
