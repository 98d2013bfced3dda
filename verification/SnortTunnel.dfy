/**
 * The Snort tunnels: every switch keeps the number of hops to its nearest Snort and one group
 * bucket, through which a mirrored packet is sent one link closer to it.
 */
module SnortTunnels {
  import opened Network

  /** The single bucket of the Snort group: pop the VLAN and leave for Snort, or forward. */
  datatype Bucket = ToSnort(port: PortNumber) | Forward(port: PortNumber)

  /** What stands in the controller and in the switches right after a bucket has been written. */
  datatype Snapshot = Snapshot(
    net: Topology, hops: map<DeviceId, int>, groups: map<DeviceId, Bucket>, sources: map<DeviceId, PortNumber>)

  datatype DeviceEventType = DeviceAdded | DeviceRemoved | PortRemoved | OtherDeviceEvent

  /** A device without an entry counts as one with no Snort available. */
  function HopsOf(hops: map<DeviceId, int>, device: DeviceId): int {
    if device in hops then hops[device] else -1
  }

  // ----- What a state of the tunnels means -----

  /** The bucket of the device leads over a link to a device with a smaller hop count. */
  ghost predicate StepsDown(s: Snapshot, device: DeviceId) {
    && device in s.groups
    && s.groups[device].Forward?
    && exists l :: l in s.net.links && l.src == ConnectPoint(device, s.groups[device].port)
                && 0 <= HopsOf(s.hops, l.dst.device) < HopsOf(s.hops, device)
  }

  /** Exactly the sources have hop count zero, and every bucket with a positive count steps down. */
  ghost predicate Downhill(s: Snapshot) {
    && (forall d {:trigger HopsOf(s.hops, d)} | d in s.net.devices || d in s.sources ::
          && -1 <= HopsOf(s.hops, d)
          && (HopsOf(s.hops, d) == 0 <==> d in s.sources)
          && (d in s.sources ==> d in s.groups && s.groups[d] == ToSnort(s.sources[d])))
    && (forall d {:trigger StepsDown(s, d)} | d in s.net.devices && 0 < HopsOf(s.hops, d) :: StepsDown(s, d))
  }

  /** Every state in which the switches have been left by a bucket write is downhill. */
  ghost predicate AllDownhill(writes: seq<Snapshot>) {
    writes != [] ==>
      && writes[|writes| - 1].net.Valid()
      && Downhill(writes[|writes| - 1])
      && AllDownhill(writes[..|writes| - 1])
  }

  /** Neighbouring hop counts differ by at most one, and availability spreads over links. */
  ghost predicate Closed(t: Topology, hops: map<DeviceId, int>) {
    forall l {:trigger Relaxed(hops, l)} | l in t.links :: Relaxed(hops, l)
  }

  ghost predicate Relaxed(hops: map<DeviceId, int>, l: Link) {
    0 <= HopsOf(hops, l.src.device) ==>
      0 <= HopsOf(hops, l.dst.device) <= HopsOf(hops, l.src.device) + 1
  }

  /** Following buckets, a packet at the device crosses `n` links and leaves `exit` for Snort. */
  ghost predicate Delivers(t: Topology, groups: map<DeviceId, Bucket>, device: DeviceId, n: nat,
                           exit: DeviceId, port: PortNumber)
    decreases n
  {
    && device in groups
    && if n == 0 then device == exit && groups[device] == ToSnort(port)
       else groups[device].Forward? &&
            exists l :: l in t.links && l.src == ConnectPoint(device, groups[device].port)
                     && Delivers(t, groups, l.dst.device, n - 1, exit, port)
  }

  // ----- Theorems about states -----

  /** No loops: with only the downhill property, every packet leaves at a source's Snort port. */
  lemma {:induction false} DownhillDelivers(s: Snapshot, device: DeviceId)
    returns (n: nat, exit: DeviceId)
    requires s.net.Valid() && Downhill(s)
    requires device in s.net.devices || device in s.sources
    requires 0 <= HopsOf(s.hops, device)
    ensures n <= HopsOf(s.hops, device)
    ensures exit in s.sources
    ensures Delivers(s.net, s.groups, device, n, exit, s.sources[exit])
    ensures s.net.Reaches(device, exit, n)
    decreases HopsOf(s.hops, device)
  {
    if HopsOf(s.hops, device) == 0 {
      n, exit := 0, device;
    } else {
      assert StepsDown(s, device);
      var l :| l in s.net.links && l.src == ConnectPoint(device, s.groups[device].port)
            && 0 <= HopsOf(s.hops, l.dst.device) < HopsOf(s.hops, device);
      var m;
      m, exit := DownhillDelivers(s, l.dst.device);
      n := m + 1;
    }
  }

  /** The route of a packet is determined: it has one length and one exit. */
  lemma {:induction false} DeliveryIsUnique(t: Topology, groups: map<DeviceId, Bucket>, device: DeviceId,
                                            n: nat, exit: DeviceId, port: PortNumber,
                                            n': nat, exit': DeviceId, port': PortNumber)
    requires t.Valid()
    requires Delivers(t, groups, device, n, exit, port)
    requires Delivers(t, groups, device, n', exit', port')
    ensures n == n' && exit == exit' && port == port'
    decreases n
  {
    if n > 0 {
      var l :| l in t.links && l.src == ConnectPoint(device, groups[device].port)
            && Delivers(t, groups, l.dst.device, n - 1, exit, port);
      var l' :| l' in t.links && l'.src == ConnectPoint(device, groups[device].port)
             && Delivers(t, groups, l'.dst.device, n' - 1, exit', port');
      DeliveryIsUnique(t, groups, l.dst.device, n - 1, exit, port, n' - 1, exit', port');
    }
  }

  lemma {:induction false} WrittenStatesAreDownhill(writes: seq<Snapshot>, i: nat)
    requires AllDownhill(writes) && i < |writes|
    ensures writes[i].net.Valid() && Downhill(writes[i])
  {
    if i < |writes| - 1 {
      WrittenStatesAreDownhill(writes[..|writes| - 1], i);
    }
  }

  /**
   * No packet ever loops, not even between two bucket writes of one search: in whatever state a
   * write left the switches, a packet at a device with a hop count leaves at a Snort port, after
   * no more links than the count says.
   */
  lemma NoLoopAfterAnyWrite(writes: seq<Snapshot>, i: nat, device: DeviceId) returns (n: nat, exit: DeviceId)
    requires AllDownhill(writes) && i < |writes|
    requires device in writes[i].net.devices && 0 <= HopsOf(writes[i].hops, device)
    ensures n <= HopsOf(writes[i].hops, device) && exit in writes[i].sources
    ensures Delivers(writes[i].net, writes[i].groups, device, n, exit, writes[i].sources[exit])
  {
    WrittenStatesAreDownhill(writes, i);
    n, exit := DownhillDelivers(writes[i], device);
  }

  /** The triangle inequality over whole paths: no path beats the recorded hop count. */
  lemma {:induction false} NoShorterPath(s: Snapshot, device: DeviceId, source: DeviceId, n: nat)
    requires s.net.Valid() && Downhill(s) && Closed(s.net, s.hops)
    requires source in s.sources && s.net.Reaches(device, source, n)
    ensures 0 <= HopsOf(s.hops, device) <= n
    decreases n
  {
    if n > 0 {
      var l :| l in s.net.links && l.src.device == device && s.net.Reaches(l.dst.device, source, n - 1);
      NoShorterPath(s, l.dst.device, source, n - 1);
      assert l.Reverse() in s.net.links && Relaxed(s.hops, l.Reverse());
    }
  }

  /** Exactness: the recorded count is the distance to the nearest source, -1 if there is none. */
  lemma HopsAreExact(s: Snapshot, device: DeviceId)
    requires s.net.Valid() && Downhill(s) && Closed(s.net, s.hops)
    requires device in s.net.devices || device in s.sources
    ensures s.net.IsDistance(s.sources.Keys, device, HopsOf(s.hops, device))
  {
    forall source, n: nat | source in s.sources.Keys && s.net.Reaches(device, source, n)
      ensures 0 <= HopsOf(s.hops, device) <= n
    {
      NoShorterPath(s, device, source, n);
    }
    if 0 <= HopsOf(s.hops, device) {
      var n, exit := DownhillDelivers(s, device);
    }
  }

  /** Delivery: a packet crosses exactly as many links as the hop count says, to a nearest Snort. */
  lemma PacketsReachTheNearestSnort(s: Snapshot, device: DeviceId) returns (exit: DeviceId)
    requires s.net.Valid() && Downhill(s) && Closed(s.net, s.hops)
    requires device in s.net.devices || device in s.sources
    requires 0 <= HopsOf(s.hops, device)
    ensures exit in s.sources
    ensures Delivers(s.net, s.groups, device, HopsOf(s.hops, device), exit, s.sources[exit])
    ensures s.net.IsDistance(s.sources.Keys, device, HopsOf(s.hops, device))
  {
    var n;
    n, exit := DownhillDelivers(s, device);
    NoShorterPath(s, device, exit, n);
    HopsAreExact(s, device);
  }

  /** The counts do not depend on the order in which the tunnels were set up. */
  lemma OrderDoesNotMatter(s: Snapshot, s': Snapshot, device: DeviceId)
    requires s.net.Valid() && Downhill(s) && Closed(s.net, s.hops)
    requires s'.net == s.net && Downhill(s') && Closed(s'.net, s'.hops)
    requires s'.sources.Keys == s.sources.Keys
    requires device in s.net.devices || device in s.sources
    ensures HopsOf(s.hops, device) == HopsOf(s'.hops, device)
  {
    HopsAreExact(s, device);
    HopsAreExact(s', device);
  }

  // ----- One breadth-first search -----

  function Unseen(seen: map<DeviceId, bool>): set<DeviceId> {
    set d | d in seen && !seen[d]
  }

  /**
   * The search between two steps. `level` is the hop count of the device removed last. The queue
   * holds levels `level` and `level + 1` in order; a seen device already has the best count the
   * search can still offer; and only links out of queued devices, or the links of the current
   * device not looked at yet, may fail to be relaxed.
   */
  ghost predicate Search(t: Topology, hops: map<DeviceId, int>, seen: map<DeviceId, bool>,
                         queue: seq<DeviceId>, current: DeviceId, pending: set<Link>, level: int)
  {
    && 0 <= level
    && seen.Keys == t.devices
    && (forall d | d in t.devices :: d in hops)
    && (forall i | 0 <= i < |queue| :: level <= HopsOf(hops, queue[i]) <= level + 1)
    && (forall i, j | 0 <= i < j < |queue| :: HopsOf(hops, queue[i]) <= HopsOf(hops, queue[j]))
    && (forall d | d in t.devices && seen[d] :: 0 <= HopsOf(hops, d) <= level + 1)
    && (forall l {:trigger Relaxed(hops, l)} | l in t.links ::
          || Relaxed(hops, l)
          || l.src.device in queue
          || (l.src.device == current && l in pending))
  }

  /** The Snort has been put on its device, and nothing else has changed. */
  ghost predicate Starts(before: Snapshot, after: Snapshot, start: DeviceId, port: PortNumber) {
    && after.net == before.net
    && after.sources == before.sources[start := port]
    && after.groups == before.groups[start := ToSnort(port)]
    && HopsOf(after.hops, start) == 0
    && forall d | d != start :: HopsOf(after.hops, d) == HopsOf(before.hops, d)
  }

  lemma StartIsSearch(before: Snapshot, after: Snapshot, seen: map<DeviceId, bool>, start: DeviceId, port: PortNumber)
    requires before.net.Valid() && Closed(before.net, before.hops) && Starts(before, after, start, port)
    requires seen.Keys == after.net.devices && forall d | d in seen :: !seen[d] && d in after.hops
    ensures Search(after.net, after.hops, seen, [start], start, {}, 0)
    ensures Recorded(before, after, [start], start, 0)
  {
    forall l | l in after.net.links
      ensures Relaxed(after.hops, l) || l.src.device in [start]
    {
      assert Relaxed(before.hops, l);
    }
  }

  lemma PopKeepsSearch(t: Topology, hops: map<DeviceId, int>, seen: map<DeviceId, bool>,
                       queue: seq<DeviceId>, last: DeviceId, level: int)
    requires queue != [] && Search(t, hops, seen, queue, last, {}, level)
    ensures level <= HopsOf(hops, queue[0])
    ensures Search(t, hops, seen, queue[1..], queue[0], t.DeviceLinks(queue[0]), HopsOf(hops, queue[0]))
  {
    assert queue == [queue[0]] + queue[1..];
  }

  /** Lowering an unseen neighbour to one more than the current level, and queueing it. */
  lemma ImproveKeepsSearch(s: Snapshot, s': Snapshot, seen: map<DeviceId, bool>,
                           queue: seq<DeviceId>, pending: set<Link>, level: int, l: Link)
    requires s.net.Valid() && l in s.net.links && l in pending
    requires Search(s.net, s.hops, seen, queue, l.src.device, pending, level)
    requires HopsOf(s.hops, l.src.device) == level && l.dst.device != l.src.device && Improves(s, s', l)
    ensures Search(s'.net, s'.hops, seen[l.dst.device := true], queue + [l.dst.device], l.src.device,
                   pending - {l}, level)
  {
    var v := l.dst.device;
    var t, hops, hops', queue' := s.net, s.hops, s'.hops, queue + [v];
    assert forall d | d != v :: HopsOf(hops', d) == HopsOf(hops, d);
    forall k | k in t.links
      ensures Relaxed(hops', k) || k.src.device in queue' || (k.src.device == l.src.device && k in pending - {l})
    {
      assert Relaxed(hops, k) || k.src.device in queue || (k.src.device == l.src.device && k in pending);
      if k.src.device == v {
        assert queue'[|queue|] == v;
      } else if k.src.device in queue {
        assert k.src.device in queue';
      }
    }
  }

  /** Who has entered the queue so far, in order, and what that changed. */
  ghost predicate Recorded(before: Snapshot, now: Snapshot, order: seq<DeviceId>, start: DeviceId, level: int) {
    && order != [] && order[0] == start && HopsOf(now.hops, start) == 0
    && (start in now.sources && now.sources == before.sources[start := now.sources[start]])
    && (forall d | d in order :: 0 <= HopsOf(now.hops, d) <= level + 1)
    && (forall i, j | 0 <= i < j < |order| ::
          order[i] != order[j] && HopsOf(now.hops, order[i]) <= HopsOf(now.hops, order[j]))
    && (forall d {:trigger HopsOf(now.hops, d)} | d != start && d in order ::
          HopsOf(before.hops, d) == -1 || HopsOf(now.hops, d) < HopsOf(before.hops, d))
    && (forall d {:trigger HopsOf(now.hops, d)} {:trigger d in now.groups} | d !in order ::
          && HopsOf(now.hops, d) == HopsOf(before.hops, d)
          && (d in now.groups <==> d in before.groups)
          && (d in now.groups ==> now.groups[d] == before.groups[d]))
  }

  /** The state kept by the service between calls, for the topology it saw last. */
  class SnortTunnel {
    var snortPorts: map<DeviceId, PortNumber>
    var snortHops: map<DeviceId, int>
    var topology: Topology             // what deviceService and linkService answer
    var groups: map<DeviceId, Bucket>  // what groupService has been told

    ghost var sources: map<DeviceId, PortNumber>  // tunnels set up since the last reset
    ghost var writes: seq<Snapshot>               // one entry per bucket written, in order

    ghost function Now(): Snapshot
      reads this`topology, this`snortHops, this`groups, this`sources
    {
      Snapshot(topology, snortHops, groups, sources)
    }

    ghost predicate Valid()
      reads this
    {
      && topology.Valid()
      && Downhill(Now())
      && Closed(topology, snortHops)
      && AllDownhill(writes)
    }

    constructor (initial: Topology)
      requires initial.Valid()
      ensures Valid() && topology == initial && snortPorts == map[] && sources == map[] && writes == []
    {
      snortPorts, snortHops, topology, groups := map[], map[], initial, map[];
      sources, writes := map[], [];
    }

    /** A device event; `now` is what the device and link services report after it. */
    method Event(event: DeviceEventType, device: DeviceId, port: PortNumber, now: Topology)
      requires Valid() && now.Valid()
      requires event.OtherDeviceEvent? ==> now == topology
      modifies this
      ensures Valid() && topology == now
      ensures snortPorts == match event
                            case DeviceRemoved => old(snortPorts) - {device}
                            case PortRemoved =>
                              if device in old(snortPorts) && old(snortPorts)[device] == port
                              then old(snortPorts) - {device} else old(snortPorts)
                            case _ => old(snortPorts)
      ensures event.OtherDeviceEvent? ==> Now() == old(Now()) && writes == old(writes)
      ensures !event.OtherDeviceEvent? ==> sources == snortPorts
      ensures old(writes) <= writes
    {
      if event.DeviceRemoved? {
        var _ := RemoveSnort(device);
      } else if event.PortRemoved? {
        if device in snortPorts && snortPorts[device] == port {
          snortPorts := snortPorts - {device};
        }
      }
      if event.DeviceAdded? || event.DeviceRemoved? || event.PortRemoved? {
        Recompute(now);
      }
    }

    /** Forgets all hop counts and sets up the tunnel of every known Snort again. */
    method Recompute(now: Topology)
      requires AllDownhill(writes) && now.Valid()
      modifies this`topology, this`snortHops, this`groups, this`sources, this`writes
      ensures Valid() && topology == now && sources == snortPorts && old(writes) <= writes
    {
      topology := now;
      ResetHops();
      sources := map[];
      ResetIsValid(Now());
      var keys := snortPorts.Keys;
      while keys != {}
        invariant keys <= snortPorts.Keys
        invariant Valid() && old(writes) <= writes
        invariant sources.Keys == snortPorts.Keys - keys
        invariant forall d | d in sources :: sources[d] == snortPorts[d]
        modifies this`snortHops, this`groups, this`sources, this`writes
      {
        var d :| d in keys;
        ghost var order := SetupSnortTunnel(d, snortPorts[d]);
        keys := keys - {d};
      }
    }

    /** -1 for every known device: no Snort available. */
    method ResetHops()
      modifies this`snortHops
      ensures forall d | d in topology.devices :: HopsOf(snortHops, d) == -1
    {
      var todo := topology.devices;
      while todo != {}
        invariant forall d | d in topology.devices - todo :: d in snortHops && snortHops[d] == -1
      {
        var d :| d in todo;
        snortHops := snortHops[d := -1];
        todo := todo - {d};
      }
    }

    method AddSnort(device: DeviceId, port: PortNumber) returns (ok: bool)
      requires Valid()
      modifies this`snortPorts, this`snortHops, this`groups, this`sources, this`writes
      ensures ok && Valid()
      ensures snortPorts == old(snortPorts)[device := port]
      ensures sources == old(sources)[device := port]
      ensures old(writes) <= writes
    {
      snortPorts := snortPorts[device := port];
      ghost var order := SetupSnortTunnel(device, port);
      return true;
    }

    /** Forgets the Snort; hop counts and buckets stay until the next device event. */
    method RemoveSnort(device: DeviceId) returns (ok: bool)
      modifies this`snortPorts
      ensures ok && snortPorts == old(snortPorts) - {device}
    {
      snortPorts := snortPorts - {device};
      return true;
    }

    method ClearSnort() returns (ok: bool)
      modifies this`snortPorts
      ensures ok && snortPorts == map[]
    {
      snortPorts := map[];
      return true;
    }

    /**
     * The search from one Snort. `order` lists the devices in the order in which they entered
     * the queue; these are also the devices whose bucket was written, in that order.
     */
    method SetupSnortTunnel(snortDevice: DeviceId, snortPort: PortNumber) returns (ghost order: seq<DeviceId>)
      requires Valid()
      modifies this`snortHops, this`groups, this`sources, this`writes
      ensures Valid()
      ensures sources == old(sources)[snortDevice := snortPort]
      ensures old(writes) <= writes
      // Each device is queued, and its bucket written, at most once, in order of hop count.
      ensures order != [] && order[0] == snortDevice && |writes| == |old(writes)| + |order|
      ensures forall i, j | 0 <= i < j < |order| ::
                order[i] != order[j] && HopsOf(snortHops, order[i]) <= HopsOf(snortHops, order[j])
      // Apart from the start, exactly the devices that got closer to a Snort were touched.
      ensures forall d | d != snortDevice && d in order ::
                old(HopsOf(snortHops, d)) == -1 || HopsOf(snortHops, d) < old(HopsOf(snortHops, d))
      ensures forall d | d !in order ::
                && HopsOf(snortHops, d) == old(HopsOf(snortHops, d))
                && (d in groups <==> d in old(groups))
                && (d in groups ==> groups[d] == old(groups)[d])
    {
      hide Search, Downhill, AllDownhill, Closed;
      ghost var before := Now();
      var seenDevices := PrepareSearch();
      snortHops := snortHops[snortDevice := 0];
      sources := sources[snortDevice := snortPort];
      SetBucket(snortDevice, ToSnort(snortPort));
      StartIsDownhill(before, Now(), snortDevice, snortPort);
      WriteKeepsAllDownhill(old(writes), Now());

      StartIsSearch(before, Now(), seenDevices, snortDevice, snortPort);
      order := Spread(snortDevice, seenDevices, before);
    }

    /** The search proper: a breadth-first walk that stops where nothing gets closer. */
    method Spread(start: DeviceId, seen0: map<DeviceId, bool>, ghost before: Snapshot)
      returns (ghost order: seq<DeviceId>)
      requires topology.Valid() && Downhill(Now()) && AllDownhill(writes)
      requires Search(topology, snortHops, seen0, [start], start, {}, 0)
      requires Recorded(before, Now(), [start], start, 0)
      modifies this`snortHops, this`groups, this`writes
      ensures Downhill(Now()) && AllDownhill(writes) && Closed(topology, snortHops)
      ensures exists level :: Recorded(before, Now(), order, start, level)
      ensures old(writes) <= writes && |writes| == |old(writes)| + |order| - 1
    {
      hide Downhill, Recorded, AllDownhill, Search, Closed, Unseen;
      var seenDevices, queue := seen0, [start];
      order := queue;
      ghost var level, current := 0, start;
      while queue != []
        invariant Downhill(Now()) && AllDownhill(writes)
        invariant Search(topology, snortHops, seenDevices, queue, current, {}, level)
        invariant Recorded(before, Now(), order, start, level)
        invariant old(writes) <= writes
        invariant |writes| == |old(writes)| + |order| - 1
        decreases Unseen(seenDevices), |queue|
      {
        PopKeepsSearch(topology, snortHops, seenDevices, queue, current, level);
        var currentDevice := queue[0];
        RecordHoldsLater(before, Now(), order, start, level, HopsOf(snortHops, currentDevice));
        queue := queue[1..];
        level, current := HopsOf(snortHops, currentDevice), currentDevice;
        seenDevices, queue, order :=
          LookAtLinks(currentDevice, seenDevices, queue, order, before, start, level);
      }
      SearchEndsClosed(topology, snortHops, seenDevices, queue, current, level);
    }

    /** No device has been seen yet, and every device gets an entry. */
    method PrepareSearch() returns (seenDevices: map<DeviceId, bool>)
      modifies this`snortHops
      ensures seenDevices.Keys == topology.devices
      ensures forall d | d in seenDevices :: !seenDevices[d] && d in snortHops
      ensures forall d :: HopsOf(snortHops, d) == HopsOf(old(snortHops), d)
    {
      seenDevices := map[];
      var todo := topology.devices;
      while todo != {}
        invariant todo <= topology.devices
        invariant seenDevices.Keys == topology.devices - todo
        invariant forall d | d in seenDevices :: !seenDevices[d] && d in snortHops
        invariant forall d :: HopsOf(snortHops, d) == HopsOf(old(snortHops), d)
      {
        var d :| d in todo;
        seenDevices := seenDevices[d := false];
        if d !in snortHops {
          snortHops := snortHops[d := -1];
        }
        todo := todo - {d};
      }
    }

    /** Replaces the bucket of the Snort group on one device. */
    method SetBucket(device: DeviceId, bucket: Bucket)
      modifies this`groups, this`writes
      ensures groups == old(groups)[device := bucket]
      ensures writes == old(writes) + [Now()]
    {
      groups := groups[device := bucket];
      writes := writes + [Now()];
    }

    /** Offers the neighbour at the far end of one link a way through the current device. */
    method LookAtLink(link: Link, ghost links: set<Link>, seen0: map<DeviceId, bool>, queue0: seq<DeviceId>,
                      ghost order0: seq<DeviceId>, ghost before: Snapshot, ghost start: DeviceId,
                      currentDevice: DeviceId, ghost level: int)
      returns (seenDevices: map<DeviceId, bool>, queue: seq<DeviceId>, ghost order: seq<DeviceId>)
      requires topology.Valid() && Downhill(Now())
      requires link in links && link in topology.DeviceLinks(currentDevice)
      requires Search(topology, snortHops, seen0, queue0, currentDevice, links, level)
      requires HopsOf(snortHops, currentDevice) == level
      requires Recorded(before, Now(), order0, start, level)
      modifies this`snortHops, this`groups, this`writes
      ensures Downhill(Now())
      ensures Search(topology, snortHops, seenDevices, queue, currentDevice, links - {link}, level)
      ensures HopsOf(snortHops, currentDevice) == level
      ensures Recorded(before, Now(), order, start, level)
      ensures || (writes == old(writes) && order == order0 && queue == queue0)
              || (writes == old(writes) + [Now()] && order == order0 + [link.dst.device])
      ensures Unseen(seenDevices) < Unseen(seen0) || (seenDevices == seen0 && queue == queue0)
    {
      var destId, destPort := link.dst.device, link.dst.port;
      if destId == currentDevice || seen0[destId] {
        PassKeepsSearch(topology, snortHops, seen0, queue0, currentDevice, links, level, link);
        return seen0, queue0, order0;
      }
      SeeingShrinksUnseen(seen0, destId);
      var newHops := snortHops[currentDevice] + 1;
      var currentHops := snortHops[destId];
      if currentHops == -1 || currentHops > newHops {
        ghost var now := Now();
        snortHops := snortHops[destId := newHops];
        SetBucket(destId, Forward(destPort));
        assert Improves(now, Now(), link);
        ImproveKeepsSearch(now, Now(), seen0, queue0, links, level, link);
        ImproveKeepsDownhill(now, Now(), link);
        ImproveKeepsRecord(before, now, Now(), order0, start, level, link);
        return seen0[destId := true], queue0 + [destId], order0 + [destId];
      }
      SkipKeepsSearch(topology, snortHops, seen0, queue0, links, level, link);
      return seen0[destId := true], queue0, order0;
    }

    /** The loop body of the search: offers the neighbours of the current device a shorter way. */
    method LookAtLinks(currentDevice: DeviceId, seen0: map<DeviceId, bool>, queue0: seq<DeviceId>,
                       ghost order0: seq<DeviceId>, ghost before: Snapshot, ghost start: DeviceId, ghost level: int)
      returns (seenDevices: map<DeviceId, bool>, queue: seq<DeviceId>, ghost order: seq<DeviceId>)
      requires topology.Valid() && Downhill(Now()) && AllDownhill(writes)
      requires Search(topology, snortHops, seen0, queue0, currentDevice, topology.DeviceLinks(currentDevice), level)
      requires HopsOf(snortHops, currentDevice) == level
      requires Recorded(before, Now(), order0, start, level)
      modifies this`snortHops, this`groups, this`writes
      ensures Downhill(Now()) && AllDownhill(writes)
      ensures Search(topology, snortHops, seenDevices, queue, currentDevice, {}, level)
      ensures Recorded(before, Now(), order, start, level)
      ensures order0 <= order && old(writes) <= writes
      ensures |writes| - |old(writes)| == |order| - |order0|
      ensures Unseen(seenDevices) < Unseen(seen0) || (Unseen(seenDevices) == Unseen(seen0) && queue == queue0)
    {
      hide Downhill, Recorded, AllDownhill, Search, Unseen;
      seenDevices, queue, order := seen0, queue0, order0;
      var links := topology.DeviceLinks(currentDevice);
      while links != {}
        invariant links <= topology.DeviceLinks(currentDevice)
        invariant HopsOf(snortHops, currentDevice) == level
        invariant Downhill(Now()) && AllDownhill(writes)
        invariant Search(topology, snortHops, seenDevices, queue, currentDevice, links, level)
        invariant Recorded(before, Now(), order, start, level)
        invariant order0 <= order && old(writes) <= writes
        invariant |writes| - |old(writes)| == |order| - |order0|
        invariant Unseen(seenDevices) <= Unseen(seen0)
        invariant Unseen(seenDevices) == Unseen(seen0) ==> queue == queue0
      {
        var link :| link in links;
        ghost var writes0 := writes;
        seenDevices, queue, order := LookAtLink(link, links, seenDevices, queue, order, before, start,
          currentDevice, level);
        if writes != writes0 {
          WriteKeepsAllDownhill(writes0, Now());
        }
        links := links - {link};
      }
    }
  }

  // ----- Steps of the search -----

  lemma ResetIsValid(s: Snapshot)
    requires s.net.Valid() && s.sources == map[]
    requires forall d | d in s.net.devices :: HopsOf(s.hops, d) == -1
    ensures Downhill(s) && Closed(s.net, s.hops)
  {
  }

  lemma StartIsDownhill(before: Snapshot, after: Snapshot, start: DeviceId, port: PortNumber)
    requires before.net.Valid() && Downhill(before) && Starts(before, after, start, port)
    ensures Downhill(after)
  {
    forall d {:trigger StepsDown(after, d)} | d in after.net.devices && 0 < HopsOf(after.hops, d)
      ensures StepsDown(after, d)
    {
      assert StepsDown(before, d);
    }
  }

  lemma WriteKeepsAllDownhill(writes: seq<Snapshot>, s: Snapshot)
    requires AllDownhill(writes) && s.net.Valid() && Downhill(s)
    ensures AllDownhill(writes + [s])
  {
    assert (writes + [s])[..|writes|] == writes;
  }

  lemma SearchEndsClosed(t: Topology, hops: map<DeviceId, int>, seen: map<DeviceId, bool>,
                         queue: seq<DeviceId>, current: DeviceId, level: int)
    requires queue == [] && Search(t, hops, seen, queue, current, {}, level)
    ensures Closed(t, hops)
  {
  }

  lemma SeeingShrinksUnseen(seen: map<DeviceId, bool>, d: DeviceId)
    requires d in seen && !seen[d]
    ensures Unseen(seen[d := true]) < Unseen(seen)
  {
    assert d in Unseen(seen) && d !in Unseen(seen[d := true]);
  }

  /** The neighbour already has a count at least as good, and is marked as seen. */
  lemma SkipKeepsSearch(t: Topology, hops: map<DeviceId, int>, seen: map<DeviceId, bool>,
                        queue: seq<DeviceId>, pending: set<Link>, level: int, l: Link)
    requires l in t.links && l.dst.device in t.devices
    requires Search(t, hops, seen, queue, l.src.device, pending, level)
    requires HopsOf(hops, l.src.device) == level
    requires 0 <= HopsOf(hops, l.dst.device) <= level + 1
    ensures Search(t, hops, seen[l.dst.device := true], queue, l.src.device, pending - {l}, level)
  {
  }

  /** The link leads back to the current device, or to a device seen before. */
  lemma PassKeepsSearch(t: Topology, hops: map<DeviceId, int>, seen: map<DeviceId, bool>,
                        queue: seq<DeviceId>, current: DeviceId, pending: set<Link>, level: int, l: Link)
    requires t.Valid() && l in t.DeviceLinks(current) && HopsOf(hops, current) == level
    requires Search(t, hops, seen, queue, current, pending, level)
    requires l.dst.device == current || seen[l.dst.device]
    ensures Search(t, hops, seen, queue, current, pending - {l}, level)
  {
  }

  lemma RecordHoldsLater(before: Snapshot, now: Snapshot, order: seq<DeviceId>, start: DeviceId, level: int, later: int)
    requires Recorded(before, now, order, start, level) && level <= later
    ensures Recorded(before, now, order, start, later)
  {
  }

  lemma ImproveKeepsRecord(before: Snapshot, s: Snapshot, s': Snapshot, order: seq<DeviceId>, start: DeviceId,
                           level: int, l: Link)
    requires Recorded(before, s, order, start, level)
    requires 0 <= level == HopsOf(s.hops, l.src.device) && Improves(s, s', l)
    ensures Recorded(before, s', order + [l.dst.device], start, level)
  {
    var v := l.dst.device;
    var order' := order + [v];
    assert v !in order;
    assert forall d | d != v :: HopsOf(s'.hops, d) == HopsOf(s.hops, d);
    assert forall d :: d in order' <==> d in order || d == v;
  }

  /** One device gets a way through a neighbour, and a bucket that leads there. */
  ghost predicate Improves(s: Snapshot, s': Snapshot, l: Link) {
    && (HopsOf(s.hops, l.dst.device) == -1 || HopsOf(s.hops, l.src.device) + 1 < HopsOf(s.hops, l.dst.device))
    && s' == s.(hops := s.hops[l.dst.device := HopsOf(s.hops, l.src.device) + 1],
                groups := s.groups[l.dst.device := Forward(l.dst.port)])
  }

  lemma ImproveKeepsDownhill(s: Snapshot, s': Snapshot, l: Link)
    requires s.net.Valid() && Downhill(s) && l in s.net.links
    requires 0 <= HopsOf(s.hops, l.src.device) && Improves(s, s', l)
    ensures Downhill(s')
  {
    var v := l.dst.device;
    assert forall d :: d != v ==> HopsOf(s'.hops, d) == HopsOf(s.hops, d);
    assert 0 != HopsOf(s.hops, v);
    forall d {:trigger StepsDown(s', d)} | d in s.net.devices && 0 < HopsOf(s'.hops, d)
      ensures StepsDown(s', d)
    {
      if d == v {
        var r := l.Reverse();
        assert r in s.net.links && r.src == ConnectPoint(d, s'.groups[d].port);
      } else {
        assert StepsDown(s, d);
        var k :| k in s.net.links && k.src == ConnectPoint(d, s.groups[d].port)
              && 0 <= HopsOf(s.hops, k.dst.device) < HopsOf(s.hops, d);
        assert 0 <= HopsOf(s'.hops, k.dst.device) < HopsOf(s'.hops, d);
      }
    }
  }
}
