/** The service that registers Snort instances and sends traffic to them, one step at a time. */
module SnortManagers {
  import opened Network
  import opened Options
  import opened SnortRules

  datatype Outcome = Done | BadRequest | NoSnortPort

  /** ArrayList.remove, of one given occurrence: the first there is. */
  lemma {:induction false} WithoutAt<T>(front: seq<T>, x: T, back: seq<T>)
    requires x !in front
    ensures Without(front + [x] + back, x) == front + back
  {
    if front == [] {
      assert [] + [x] + back == [x] + back;
      assert ([x] + back)[1..] == back;
    } else {
      assert (front + [x] + back)[1..] == front[1..] + [x] + back;
      WithoutAt(front[1..], x, back);
    }
  }

  function Registered(snortPorts: map<DeviceId, map<Ip, PortNumber>>, devices: seq<DeviceId>): (r: seq<DeviceId>)
    ensures forall d | d in r :: d in snortPorts && d in devices
  {
    if devices == [] then []
    else
      var rest := Registered(snortPorts, devices[..|devices| - 1]);
      if devices[|devices| - 1] in snortPorts then rest + [devices[|devices| - 1]] else rest
  }

  /** Devices with a matching flow and a Snort, or else with a matching flow, or else all. */
  function Targets(snortPorts: map<DeviceId, map<Ip, PortNumber>>, matching: seq<DeviceId>, devices: seq<DeviceId>):
    seq<DeviceId>
  {
    var registered := Registered(snortPorts, matching);
    if registered != [] then registered else if matching != [] then matching else devices
  }

  /** How many of the devices a rule can be made for before one throws. */
  function Served(snortPorts: map<DeviceId, map<Ip, PortNumber>>, devices: seq<DeviceId>): (n: nat)
    ensures n <= |devices| && forall i | 0 <= i < n :: HasPort(snortPorts, devices[i])
    ensures n < |devices| ==> !HasPort(snortPorts, devices[n])
  {
    if devices == [] then 0
    else
      var n := Served(snortPorts, devices[..|devices| - 1]);
      if n == |devices| - 1 && HasPort(snortPorts, devices[n]) then n + 1 else n
  }

  function RegisterAll(ip: Ip, points: seq<ConnectPoint>): seq<Call> {
    seq(|points|, i requires 0 <= i < |points| => Register(ip, points[i]))
  }

  function AddCalls(ip: Ip, points: seq<ConnectPoint>): seq<Call> {
    [Await(ip)] + RegisterAll(ip, points)
  }

  lemma HostCallsGrow(pendingSnort: seq<Ip>, ips: seq<Ip>, i: nat, points: Ip -> seq<ConnectPoint>)
    requires i < |ips|
    ensures HostCalls(pendingSnort, ips[..i + 1], points)
         == if ips[i] in pendingSnort then HostCalls(pendingSnort, ips[..i], points) + AddCalls(ips[i], points(ips[i]))
            else HostCalls(pendingSnort, ips[..i], points)
  {
    assert ips[..i + 1][..i] == ips[..i];
  }

  /** One more call carried out after those of a list. */
  lemma OneMore(s: State, calls: seq<Call>, c: Call, all: seq<Call>)
    requires all == calls + [c]
    ensures After(s, all) == Next(After(s, calls), c)
  {
    hide Next;
    AfterAppend(s, calls, c);
  }

  /** What a host event does: every pending address of the host is added again. */
  function HostCalls(pendingSnort: seq<Ip>, ips: seq<Ip>, points: Ip -> seq<ConnectPoint>): seq<Call> {
    if ips == [] then []
    else
      var ip := ips[|ips| - 1];
      HostCalls(pendingSnort, ips[..|ips| - 1], points) + if ip in pendingSnort then AddCalls(ip, points(ip)) else []
  }

  lemma NoPendingRules(kind: Kind, device: DeviceId)
    ensures PendingRules(kind, device, []) == map[]
  {
  }

  lemma InstallGrows(flows: map<Key, Rule>, kind: Kind, device: DeviceId, ts: seq<FiveTuple>, i: nat)
    requires i < |ts|
    ensures (flows + PendingRules(kind, device, ts[..i]))[TunnelKey(device, ts[i]) := TunnelRule(kind, FLOW_TIMEOUT)]
         == flows + PendingRules(kind, device, ts[..i + 1])
  {
    assert ts[..i + 1] == ts[..i] + [ts[i]];
    assert PendingRules(kind, device, ts[..i + 1])
        == PendingRules(kind, device, ts[..i])[TunnelKey(device, ts[i]) := TunnelRule(kind, FLOW_TIMEOUT)];
  }

  /** The Snort has been removed from those of its devices that were visited. */
  ghost predicate RemovedOn(before: State, ip: Ip, now: State, visited: set<DeviceId>) {
    && now.pendingSnort == before.pendingSnort && now.pending == before.pending
    && now.snortPorts == (map d | d in before.snortPorts ::
         if d in visited then before.snortPorts[d] - {ip} else before.snortPorts[d])
    && now.dropRules == before.dropRules - DropKeysOn(before, ip, visited)
    && now.flows == before.flows - DropKeysOn(before, ip, visited)
    && now.tunnels == before.tunnels - (Holders(before, ip) * visited)
  }

  function DropKeysOn(s: State, ip: Ip, visited: set<DeviceId>): set<Key> {
    set d | d in visited && d in s.snortPorts && ip in s.snortPorts[d] :: DropKey(d, s.snortPorts[d][ip])
  }

  /** The Snort has been removed from one more device, if it is there. */
  function RemovedAt(s: State, ip: Ip, d: DeviceId): State
    requires d in s.snortPorts
  {
    if ip !in s.snortPorts[d] then s
    else
      var key := DropKey(d, s.snortPorts[d][ip]);
      s.(snortPorts := s.snortPorts[d := s.snortPorts[d] - {ip}],
         dropRules := s.dropRules - {key}, flows := s.flows - {key}, tunnels := s.tunnels - {d})
  }

  lemma RemovedOnGrows(before: State, ip: Ip, now: State, visited: set<DeviceId>, d: DeviceId)
    requires RemovedOn(before, ip, now, visited) && d in before.snortPorts && d !in visited
    ensures RemovedOn(before, ip, RemovedAt(now, ip, d), visited + {d})
  {
    if ip in before.snortPorts[d] {
      assert DropKeysOn(before, ip, visited + {d})
          == DropKeysOn(before, ip, visited) + {DropKey(d, before.snortPorts[d][ip])};
    } else {
      assert before.snortPorts[d] - {ip} == before.snortPorts[d];
      assert DropKeysOn(before, ip, visited + {d}) == DropKeysOn(before, ip, visited);
    }
  }

  lemma RemovedEverywhere(before: State, ip: Ip, now: State)
    requires RemovedOn(before, ip, now, before.snortPorts.Keys)
    ensures now.(pendingSnort := Without(now.pendingSnort, ip)) == Next(before, Remove(ip))
  {
    assert DropKeysOn(before, ip, before.snortPorts.Keys) == DropKeysOf(before, ip);
    assert Holders(before, ip) * before.snortPorts.Keys == Holders(before, ip);
  }

  /** The drop rules of all Snorts on one device, and on those of the devices visited. */
  function DropKeysAt(d: DeviceId, ports: map<Ip, PortNumber>, visited: set<Ip>): set<Key> {
    set ip | ip in visited && ip in ports :: DropKey(d, ports[ip])
  }

  function DropKeysIn(snortPorts: map<DeviceId, map<Ip, PortNumber>>, visited: set<DeviceId>): set<Key> {
    set d, ip | d in visited && d in snortPorts && ip in snortPorts[d] :: DropKey(d, snortPorts[d][ip])
  }

  /** The whole effect of registering, component by component. */
  lemma RegisterIs(s: State, ip: Ip, at: ConnectPoint, s': State)
    requires s'.snortPorts == s.snortPorts[at.device := PortsOf(s, at.device)[ip := at.port]]
    requires s'.pendingSnort == s.pendingSnort && s'.tunnels == s.tunnels[at.device := at.port]
    requires s'.dropRules == s.dropRules + {DropKey(at.device, at.port)}
    requires s'.pending == s.pending - {Slot(Mirror, at.device)} - {Slot(Redirect, at.device)}
    requires s'.flows == s.flows[DropKey(at.device, at.port) := DROP_RULE]
                       + PendingRules(Mirror, at.device, PendingAt(s, Slot(Mirror, at.device)))
                       + PendingRules(Redirect, at.device, PendingAt(s, Slot(Redirect, at.device)))
    ensures s' == Next(s, Register(ip, at))
  {
    hide PendingRules;
    assert s'.pending == s.pending - Slots(at.device);
  }

  /** What a request comes to, as long as every device it is meant for is reached in turn. */
  function RuleOutcome(snortPorts: map<DeviceId, map<Ip, PortNumber>>, request: Request, targets: seq<DeviceId>):
    Outcome
  {
    if targets == [] then Done
    else if CreateSelector(request).None? then BadRequest
    else if Served(snortPorts, targets) < |targets| then NoSnortPort
    else Done
  }

  /** The rule has been sent to these devices, if it could be made at all. */
  function Sent(s: State, kind: Kind, request: Request, timeout: int, devices: seq<DeviceId>): State {
    var t := CreateSelector(request);
    if t.None? then s else After(s, SendAll(kind, devices, t.value, timeout))
  }

  lemma SentGrows(s: State, kind: Kind, request: Request, timeout: int, devices: seq<DeviceId>, i: nat)
    requires i < |devices| && CreateSelector(request).Some?
    ensures Sent(s, kind, request, timeout, devices[..i + 1])
         == Next(Sent(s, kind, request, timeout, devices[..i]),
                 Send(kind, devices[i], CreateSelector(request).value, timeout))
  {
    hide Next;
    var t := CreateSelector(request).value;
    OneMore(s, SendAll(kind, devices[..i], t, timeout), Send(kind, devices[i], t, timeout),
            SendAll(kind, devices[..i + 1], t, timeout));
  }

  /** The rule has been deleted on these devices. */
  function Unsent(s: State, kind: Kind, request: Request, devices: seq<DeviceId>): State {
    var t := CreateSelector(request);
    if t.None? then s else After(s, UnsendAll(kind, devices, t.value))
  }

  lemma UnsentGrows(s: State, kind: Kind, request: Request, devices: seq<DeviceId>, i: nat)
    requires i < |devices| && CreateSelector(request).Some?
    ensures Unsent(s, kind, request, devices[..i + 1])
         == Next(Unsent(s, kind, request, devices[..i]), Unsend(kind, devices[i], CreateSelector(request).value))
  {
    hide Next;
    var t := CreateSelector(request).value;
    OneMore(s, UnsendAll(kind, devices[..i], t), Unsend(kind, devices[i], t), UnsendAll(kind, devices[..i + 1], t));
  }

  /** The traffic is dropped on these devices. */
  function Blocked(s: State, request: Request, timeout: int, devices: seq<DeviceId>): State {
    var t := CreateSelector(request);
    if t.None? then s else After(s, BlockAll(devices, t.value, timeout))
  }

  lemma BlockedGrows(s: State, request: Request, timeout: int, devices: seq<DeviceId>, i: nat)
    requires i < |devices| && CreateSelector(request).Some?
    ensures Blocked(s, request, timeout, devices[..i + 1])
         == Next(Blocked(s, request, timeout, devices[..i]), Block(devices[i], CreateSelector(request).value, timeout))
  {
    hide Next;
    var t := CreateSelector(request).value;
    OneMore(s, BlockAll(devices[..i], t, timeout), Block(devices[i], t, timeout),
            BlockAll(devices[..i + 1], t, timeout));
  }

  /** The block has been lifted on these devices. */
  function Unblocked(s: State, request: Request, devices: seq<DeviceId>): State {
    var t := CreateSelector(request);
    if t.None? then s else After(s, UnblockAll(devices, t.value))
  }

  lemma UnblockedGrows(s: State, request: Request, devices: seq<DeviceId>, i: nat)
    requires i < |devices| && CreateSelector(request).Some?
    ensures Unblocked(s, request, devices[..i + 1])
         == Next(Unblocked(s, request, devices[..i]), Unblock(devices[i], CreateSelector(request).value))
  {
    hide Next;
    var t := CreateSelector(request).value;
    OneMore(s, UnblockAll(devices[..i], t), Unblock(devices[i], t), UnblockAll(devices[..i + 1], t));
  }

  // ----- What the requests come to -----

  lemma {:induction false} RegisteredCounts(snortPorts: map<DeviceId, map<Ip, PortNumber>>, devices: seq<DeviceId>,
                                            d: DeviceId)
    ensures multiset(Registered(snortPorts, devices))[d] == if d in snortPorts then multiset(devices)[d] else 0
  {
    if devices != [] {
      assert devices == devices[..|devices| - 1] + [devices[|devices| - 1]];
      RegisteredCounts(snortPorts, devices[..|devices| - 1], d);
    }
  }

  lemma {:induction false} NoneRegisteredIff(snortPorts: map<DeviceId, map<Ip, PortNumber>>, devices: seq<DeviceId>)
    ensures Registered(snortPorts, devices) == [] <==> !exists e :: e in devices && e in snortPorts
  {
    if devices != [] {
      assert devices == devices[..|devices| - 1] + [devices[|devices| - 1]];
      NoneRegisteredIff(snortPorts, devices[..|devices| - 1]);
    }
  }

  /**
   * A rule is meant for the devices with a matching flow that have a Snort, if there are any;
   * else for all those with a matching flow, if there are any; else for all devices. A device is
   * named as often as it has matching flows.
   */
  lemma TargetsAre(snortPorts: map<DeviceId, map<Ip, PortNumber>>, matching: seq<DeviceId>, devices: seq<DeviceId>,
                   d: DeviceId)
    ensures var targets := multiset(Targets(snortPorts, matching, devices));
            if exists e :: e in matching && e in snortPorts then
              targets[d] == if d in snortPorts then multiset(matching)[d] else 0
            else if matching != [] then targets == multiset(matching)
            else targets == multiset(devices)
  {
    RegisteredCounts(snortPorts, matching, d);
    NoneRegisteredIff(snortPorts, matching);
    hide Registered;
  }

  /** A request fails for what cannot be read, if it is meant for any device, or for one without a port. */
  lemma RuleOutcomeIff(snortPorts: map<DeviceId, map<Ip, PortNumber>>, request: Request, targets: seq<DeviceId>)
    ensures RuleOutcome(snortPorts, request, targets) == BadRequest <==>
              targets != [] && CreateSelector(request).None?
    ensures RuleOutcome(snortPorts, request, targets) == NoSnortPort <==>
              CreateSelector(request).Some? && exists d :: d in targets && !HasPort(snortPorts, d)
  {
    var n := Served(snortPorts, targets);
    if n < |targets| {
      assert targets[n] in targets;
    }
  }

  /** Adding a rule: on each of the devices up to one without a port, the traffic is then sent as asked. */
  lemma AddedRuleSends(s: State, kind: Kind, request: Request, timeout: int, targets: seq<DeviceId>, i: nat)
    requires i < Served(s.snortPorts, targets) && CreateSelector(request).Some?
    ensures var after := Sent(s, kind, request, timeout, targets[..Served(s.snortPorts, targets)]);
            var rule := TunnelRuleAt(after, targets[i], CreateSelector(request).value);
            rule.Some? && SendsAs(rule.value, kind, if timeout > 0 then Some(timeout) else None)
  {
    hide CreateSelector, After, TunnelRuleAt, SendsAs;
    var served := targets[..Served(s.snortPorts, targets)];
    assert served[i] == targets[i];
    SendingInstalls(s, kind, served, CreateSelector(request).value, timeout, targets[i]);
  }

  /** Deleting it: on each of the devices up to one without a port, nothing is sent any more. */
  lemma DeletedRuleIsGone(s: State, kind: Kind, request: Request, devices: seq<DeviceId>, i: nat)
    requires i < Served(s.snortPorts, devices) && CreateSelector(request).Some? && Distinct(devices)
    ensures var after := Unsent(s, kind, request, devices[..Served(s.snortPorts, devices)]);
            TunnelRuleAt(after, devices[i], CreateSelector(request).value).None?
  {
    hide CreateSelector, After, PendingAt;
    var served, t := devices[..Served(s.snortPorts, devices)], CreateSelector(request).value;
    assert served[i] == devices[i];
    UnsendAllTakesOne(s, kind, served, t, Slot(kind, devices[i]));
    assert TunnelKey(devices[i], t) == Key(devices[i], 10, 10, Matches(t));
  }

  /** A host event asks for the addresses of the host that are awaited, each at all its places, and for no others. */
  lemma {:induction false} HostCallsIff(pendingSnort: seq<Ip>, ips: seq<Ip>, points: Ip -> seq<ConnectPoint>, c: Call)
    ensures c in HostCalls(pendingSnort, ips, points) <==>
              exists ip :: && ip in ips && ip in pendingSnort
                           && (c == Await(ip) || exists at :: at in points(ip) && c == Register(ip, at))
  {
    if ips != [] {
      var n := |ips| - 1;
      HostCallsIff(pendingSnort, ips[..n], points, c);
      assert ips == ips[..n] + [ips[n]];
      AddCallsIff(ips[n], points(ips[n]), c);
      hide AddCalls;
      assert c in HostCalls(pendingSnort, ips, points) <==>
               || c in HostCalls(pendingSnort, ips[..n], points)
               || (ips[n] in pendingSnort && c in AddCalls(ips[n], points(ips[n])));
    }
  }

  lemma AddCallsIff(ip: Ip, points: seq<ConnectPoint>, c: Call)
    ensures c in AddCalls(ip, points) <==> c == Await(ip) || exists at :: at in points && c == Register(ip, at)
  {
    if at :| at in points && c == Register(ip, at) {
      var i :| 0 <= i < |points| && points[i] == at;
      assert RegisterAll(ip, points)[i] == c;
      assert AddCalls(ip, points)[i + 1] == c;
    }
  }

  class SnortManager {
    var snortPorts: map<DeviceId, map<Ip, PortNumber>>
    var snortDuplicationRules: set<Key>
    var pendingSnort: seq<Ip>
    var pending: map<Slot, seq<FiveTuple>>
    var flows: map<Key, Rule>               // what flowRuleService has been told
    var tunnels: map<DeviceId, PortNumber>  // what snortTunnel has been told

    ghost function Now(): State
      reads this
    {
      State(snortPorts, pendingSnort, pending, snortDuplicationRules, flows, tunnels)
    }

    constructor ()
      ensures Now() == INITIAL
    {
      snortPorts, snortDuplicationRules, pendingSnort, pending, flows, tunnels := map[], {}, [], map[], map[], map[];
    }

    /** Installs or removes the rule that drops what comes back from a Snort. */
    method SnortDuplicationBlock(install: bool, device: DeviceId, port: PortNumber)
      modifies this`snortDuplicationRules, this`flows
      ensures snortDuplicationRules == if install then old(snortDuplicationRules) + {DropKey(device, port)}
                                       else old(snortDuplicationRules) - {DropKey(device, port)}
      ensures flows == if install then old(flows)[DropKey(device, port) := DROP_RULE]
                       else old(flows) - {DropKey(device, port)}
    {
      var key := DropKey(device, port);
      if install {
        snortDuplicationRules := snortDuplicationRules + {key};
        flows := flows[key := DROP_RULE];
      } else {
        snortDuplicationRules := snortDuplicationRules - {key};
        flows := flows - {key};
      }
    }

    /** Installs what has been waiting for a Snort on the device. */
    method InstallPending(kind: Kind, device: DeviceId)
      modifies this`pending, this`flows
      ensures pending == old(pending) - {Slot(kind, device)}
      ensures flows == old(flows) + PendingRules(kind, device, PendingAt(old(Now()), Slot(kind, device)))
    {
      hide PendingRules;
      var slot := Slot(kind, device);
      NoPendingRules(kind, device);
      assert flows + map[] == flows;
      if slot in pending {
        var selectors := pending[slot];
        for i := 0 to |selectors|
          invariant flows == old(flows) + PendingRules(kind, device, selectors[..i])
          modifies this`flows
        {
          InstallGrows(old(flows), kind, device, selectors, i);
          flows := flows[TunnelKey(device, selectors[i]) := TunnelRule(kind, FLOW_TIMEOUT)];
        }
        assert selectors[..|selectors|] == selectors;
        pending := pending - {slot};
      }
    }

    /** One place at which the address of the Snort has been seen. */
    method RegisterAt(ip: Ip, at: ConnectPoint)
      modifies this`snortPorts, this`snortDuplicationRules, this`flows, this`tunnels, this`pending
      ensures Now() == Next(old(Now()), Register(ip, at))
    {
      hide Next, PendingRules;
      PutPort(ip, at);
      SnortDuplicationBlock(true, at.device, at.port);
      tunnels := tunnels[at.device := at.port];
      InstallPending(Mirror, at.device);
      InstallPending(Redirect, at.device);
      RegisterIs(old(Now()), ip, at, Now());
    }

    method PutPort(ip: Ip, at: ConnectPoint)
      modifies this`snortPorts
      ensures snortPorts == old(snortPorts)[at.device := PortsOf(old(Now()), at.device)[ip := at.port]]
    {
      if at.device !in snortPorts {
        snortPorts := snortPorts[at.device := map[]];
      }
      var ports: map<Ip, PortNumber> := snortPorts[at.device];
      ports := ports[ip := at.port];
      snortPorts := snortPorts[at.device := ports];
    }

    /** `points` are the connect points of the hosts with this address, as the services list them. */
    method AddSnortInstance(ip: Ip, points: seq<ConnectPoint>) returns (ok: bool)
      modifies this
      ensures ok && Now() == After(old(Now()), AddCalls(ip, points))
      ensures pendingSnort == if ip in old(pendingSnort) then old(pendingSnort) else old(pendingSnort) + [ip]
    {
      hide Next, After;
      Enqueue(ip);
      for i := 0 to |points|
        invariant Now() == After(old(Now()), AddCalls(ip, points[..i]))
        invariant pendingSnort == if ip in old(pendingSnort) then old(pendingSnort) else old(pendingSnort) + [ip]
        modifies this`snortPorts, this`snortDuplicationRules, this`flows, this`tunnels, this`pending
      {
        RegisterAt(ip, points[i]);
        OneMore(old(Now()), AddCalls(ip, points[..i]), Register(ip, points[i]), AddCalls(ip, points[..i + 1]));
      }
      assert points[..|points|] == points;
      ok := true;
    }

    method Enqueue(ip: Ip)
      modifies this`pendingSnort
      ensures Now() == After(old(Now()), AddCalls(ip, []))
      ensures pendingSnort == if ip in old(pendingSnort) then old(pendingSnort) else old(pendingSnort) + [ip]
    {
      if ip !in pendingSnort {
        pendingSnort := pendingSnort + [ip];
      }
      OneMore(old(Now()), [], Await(ip), AddCalls(ip, []));
    }

    /** A host was added: those of its addresses that were asked for are looked up again. */
    method HostAdded(ips: seq<Ip>, points: Ip -> seq<ConnectPoint>)
      modifies this
      ensures Now() == After(old(Now()), HostCalls(old(pendingSnort), ips, points))
      ensures pendingSnort == old(pendingSnort)
    {
      hide Next;
      for i := 0 to |ips|
        invariant Now() == After(old(Now()), HostCalls(old(pendingSnort), ips[..i], points))
        invariant pendingSnort == old(pendingSnort)
      {
        HostCallsGrow(old(pendingSnort), ips, i, points);
        if ips[i] in pendingSnort {
          var ok := AddSnortInstance(ips[i], points(ips[i]));
          AfterConcat(old(Now()), HostCalls(old(pendingSnort), ips[..i], points), AddCalls(ips[i], points(ips[i])));
        }
      }
      assert ips[..|ips|] == ips;
    }

    /** Forgets the Snort wherever it is registered, with its drop rules and tunnels. */
    method RemoveSnortInstance(ip: Ip) returns (ok: bool)
      modifies this
      ensures ok && Now() == Next(old(Now()), Remove(ip))
    {
      hide RemovedAt, Next;
      var todo := snortPorts.Keys;
      assert RemovedOn(Now(), ip, Now(), {});
      while todo != {}
        invariant todo <= old(snortPorts).Keys == snortPorts.Keys
        invariant RemovedOn(old(Now()), ip, Now(), old(snortPorts).Keys - todo)
      {
        var d :| d in todo;
        RemovedOnGrows(old(Now()), ip, Now(), old(snortPorts).Keys - todo, d);
        RemoveAt(ip, d);
        assert old(snortPorts).Keys - (todo - {d}) == old(snortPorts).Keys - todo + {d};
        todo := todo - {d};
      }
      RemovedEverywhere(old(Now()), ip, Now());
      pendingSnort := Without(pendingSnort, ip);
      ok := true;
    }

    method RemoveAt(ip: Ip, d: DeviceId)
      requires d in snortPorts
      modifies this`snortPorts, this`snortDuplicationRules, this`flows, this`tunnels
      ensures Now() == RemovedAt(old(Now()), ip, d) && snortPorts.Keys == old(snortPorts).Keys
    {
      if ip in snortPorts[d] {
        SnortDuplicationBlock(false, d, snortPorts[d][ip]);
        snortPorts := snortPorts[d := snortPorts[d] - {ip}];
        tunnels := tunnels - {d};
      }
    }

    /** Forgets all Snorts, with their drop rules and tunnels. */
    method ClearSnortInstances() returns (ok: bool)
      modifies this
      ensures ok && Now() == Next(old(Now()), Clear)
    {
      var todo := snortPorts.Keys;
      while todo != {}
        invariant todo <= snortPorts.Keys
        invariant snortDuplicationRules == old(snortDuplicationRules) - DropKeysIn(snortPorts, snortPorts.Keys - todo)
        invariant flows == old(flows) - DropKeysIn(snortPorts, snortPorts.Keys - todo)
        modifies this`snortDuplicationRules, this`flows
      {
        var d :| d in todo;
        ClearDevice(d);
        assert DropKeysIn(snortPorts, snortPorts.Keys - (todo - {d}))
            == DropKeysIn(snortPorts, snortPorts.Keys - todo) + DropKeysAt(d, snortPorts[d], snortPorts[d].Keys);
        todo := todo - {d};
      }
      assert DropKeysIn(snortPorts, snortPorts.Keys) == AllDropKeys(snortPorts);
      snortPorts, pendingSnort, tunnels := map[], [], map[];
      ok := true;
    }

    method ClearDevice(d: DeviceId)
      requires d in snortPorts
      modifies this`snortDuplicationRules, this`flows
      ensures snortDuplicationRules == old(snortDuplicationRules) - DropKeysAt(d, snortPorts[d], snortPorts[d].Keys)
      ensures flows == old(flows) - DropKeysAt(d, snortPorts[d], snortPorts[d].Keys)
    {
      var ports := snortPorts[d];
      var todo := ports.Keys;
      while todo != {}
        invariant todo <= ports.Keys
        invariant snortDuplicationRules == old(snortDuplicationRules) - DropKeysAt(d, ports, ports.Keys - todo)
        invariant flows == old(flows) - DropKeysAt(d, ports, ports.Keys - todo)
      {
        var ip :| ip in todo;
        SnortDuplicationBlock(false, d, ports[ip]);
        assert DropKeysAt(d, ports, ports.Keys - (todo - {ip}))
            == DropKeysAt(d, ports, ports.Keys - todo) + {DropKey(d, ports[ip])};
        todo := todo - {ip};
      }
    }

    /** Those of the devices that have a Snort, in order, each as often as it was named. */
    method GetSuitableSnortDevices(matching: seq<DeviceId>) returns (suitable: seq<DeviceId>)
      ensures suitable == Registered(snortPorts, matching)
    {
      suitable := matching;
      for i := 0 to |matching|
        invariant suitable == Registered(snortPorts, matching[..i]) + matching[i..]
      {
        assert matching[..i + 1][..i] == matching[..i];
        assert suitable == Registered(snortPorts, matching[..i]) + [matching[i]] + matching[i + 1..];
        if matching[i] !in snortPorts {
          WithoutAt(Registered(snortPorts, matching[..i]), matching[i], matching[i + 1..]);
          suitable := Without(suitable, matching[i]);
        }
      }
      assert matching[..|matching|] == matching;
    }

    /** A mirror or redirect rule for one device; without a Snort there it is also kept pending. */
    method SendFrom(kind: Kind, d: DeviceId, t: FiveTuple, timeout: int) returns (served: bool)
      modifies this`pending, this`flows
      ensures Now() == Next(old(Now()), Send(kind, d, t, timeout)) && served == HasPort(snortPorts, d)
      ensures !served ==> Now() == old(Now())
    {
      if d in snortPorts {
        if snortPorts[d] == map[] {
          return false;
        }
        flows := flows[TunnelKey(d, t) := TunnelRule(kind, timeout)];
      } else {
        var slot := Slot(kind, d);
        if slot !in pending {
          pending := pending[slot := []];
        }
        pending := pending[slot := pending[slot] + [t]];
        flows := flows[TunnelKey(d, t) := TunnelRule(kind, timeout)];
      }
      return true;
    }

    /**
     * Adds a mirror or redirect rule. `matching` are the devices with a flow entry that matches
     * the request, once for each, and `devices` all known ones.
     */
    method AddRule(kind: Kind, request: Request, timeout: int, matching: seq<DeviceId>, devices: seq<DeviceId>)
      returns (o: Outcome)
      modifies this`pending, this`flows
      ensures var targets := Targets(snortPorts, matching, devices);
              && o == RuleOutcome(snortPorts, request, targets)
              && Now() == Sent(old(Now()), kind, request, timeout, targets[..Served(snortPorts, targets)])
    {
      var targets := GetSuitableSnortDevices(matching);
      if targets == [] {
        targets := if matching != [] then matching else devices;
      }
      o := SendFromAll(kind, request, timeout, targets);
    }

    method SendFromAll(kind: Kind, request: Request, timeout: int, targets: seq<DeviceId>) returns (o: Outcome)
      modifies this`pending, this`flows
      ensures o == RuleOutcome(snortPorts, request, targets)
      ensures Now() == Sent(old(Now()), kind, request, timeout, targets[..Served(snortPorts, targets)])
    {
      hide Next, HasPort, CreateSelector;
      for i := 0 to |targets|
        invariant i <= Served(snortPorts, targets)
        invariant i > 0 ==> CreateSelector(request).Some?
        invariant Now() == Sent(old(Now()), kind, request, timeout, targets[..i])
      {
        var t := CreateSelector(request);
        if t.None? {
          return BadRequest;
        }
        SentGrows(old(Now()), kind, request, timeout, targets, i);
        var served := SendFrom(kind, targets[i], t.value, timeout);
        if !served {
          return NoSnortPort;
        }
      }
      return Done;
    }

    method DeleteFrom(kind: Kind, d: DeviceId, t: FiveTuple) returns (served: bool)
      modifies this`pending, this`flows
      ensures Now() == Next(old(Now()), Unsend(kind, d, t)) && served == HasPort(snortPorts, d)
      ensures !served ==> Now() == old(Now())
    {
      if d in snortPorts && snortPorts[d] == map[] {
        return false;
      }
      flows := flows - {TunnelKey(d, t)};
      var slot := Slot(kind, d);
      if slot in pending {
        pending := pending[slot := Without(pending[slot], t)];
      }
      return true;
    }

    /** Deletes a mirror or redirect rule on all known devices, up to one without a Snort port. */
    method DeleteRule(kind: Kind, request: Request, devices: seq<DeviceId>) returns (o: Outcome)
      modifies this`pending, this`flows
      ensures o == RuleOutcome(snortPorts, request, devices)
      ensures Now() == Unsent(old(Now()), kind, request, devices[..Served(snortPorts, devices)])
    {
      hide Next, HasPort, CreateSelector;
      for i := 0 to |devices|
        invariant i <= Served(snortPorts, devices)
        invariant i > 0 ==> CreateSelector(request).Some?
        invariant Now() == Unsent(old(Now()), kind, request, devices[..i])
      {
        var t := CreateSelector(request);
        if t.None? {
          return BadRequest;
        }
        UnsentGrows(old(Now()), kind, request, devices, i);
        var served := DeleteFrom(kind, devices[i], t.value);
        if !served {
          return NoSnortPort;
        }
      }
      return Done;
    }

    /** Drops the traffic on the given devices. */
    method InstallBlocks(request: Request, timeout: int, targets: seq<DeviceId>) returns (o: Outcome)
      modifies this`flows
      ensures o == if targets != [] && CreateSelector(request).None? then BadRequest else Done
      ensures Now() == Blocked(old(Now()), request, timeout, targets)
    {
      hide Next, CreateSelector;
      for i := 0 to |targets|
        invariant i > 0 ==> CreateSelector(request).Some?
        invariant Now() == Blocked(old(Now()), request, timeout, targets[..i])
      {
        var t := CreateSelector(request);
        if t.None? {
          return BadRequest;
        }
        BlockedGrows(old(Now()), request, timeout, targets, i);
        InstallBlock(t.value, timeout, targets[i]);
      }
      assert targets[..|targets|] == targets;
      return Done;
    }

    method InstallBlock(t: FiveTuple, timeout: int, d: DeviceId)
      modifies this`flows
      ensures Now() == Next(old(Now()), Block(d, t, timeout))
    {
      flows := flows[BlockKey(d, t) := Rule(Drop, Lifetime(timeout))];
    }

    /** Blocks traffic on its devices, or on all, and no longer sends it to Snort anywhere. */
    method AddBlockRule(request: Request, timeout: int, matching: seq<DeviceId>, devices: seq<DeviceId>)
      returns (o: Outcome)
      modifies this`pending, this`flows
      ensures o == if (matching != [] || devices != []) && CreateSelector(request).None? then BadRequest
                   else RuleOutcome(snortPorts, request, devices)
      ensures var served := Served(snortPorts, devices);
              var blocked := Blocked(old(Now()), request, timeout, if matching != [] then matching else devices);
              var redirected := Unsent(blocked, Redirect, request, devices[..served]);
              Now() == if served < |devices| then redirected else Unsent(redirected, Mirror, request, devices)
    {
      assert devices[..|devices|] == devices;
      o := InstallBlocks(request, timeout, if matching != [] then matching else devices);
      if o.Done? {
        o := DeleteRule(Redirect, request, devices);
        if o.Done? {
          o := DeleteRule(Mirror, request, devices);
        }
      }
    }

    /** Lifts a block on all known devices. */
    method DeleteBlockRule(request: Request, devices: seq<DeviceId>) returns (o: Outcome)
      modifies this`flows
      ensures o == if devices != [] && CreateSelector(request).None? then BadRequest else Done
      ensures Now() == Unblocked(old(Now()), request, devices)
    {
      hide Next, CreateSelector;
      for i := 0 to |devices|
        invariant i > 0 ==> CreateSelector(request).Some?
        invariant Now() == Unblocked(old(Now()), request, devices[..i])
      {
        var t := CreateSelector(request);
        if t.None? {
          return BadRequest;
        }
        UnblockedGrows(old(Now()), request, devices, i);
        RemoveBlock(t.value, devices[i]);
      }
      assert devices[..|devices|] == devices;
      return Done;
    }

    method RemoveBlock(t: FiveTuple, d: DeviceId)
      modifies this`flows
      ensures Now() == Next(old(Now()), Unblock(d, t))
    {
      flows := flows - {BlockKey(d, t)};
    }
  }
}
