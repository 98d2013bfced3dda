/**
 * The rules that send traffic to Snort and drop what Snort sends back, as an automaton over the
 * elementary calls on one device at a time, and the theorems about its runs.
 */
module SnortRules {
  import opened Network
  import opened Options

  const FLOW_TIMEOUT := 10
  const FLOW_PRIORITY := 10
  const TUNNEL_TABLE := 10
  const CLEANSING_TABLE := 20
  const BLOCK_TABLE := 100
  const SNORT_VLAN_ID := 500
  const SNORT_GROUP_ID := 500

  type Ip = string

  datatype Protocol = Tcp | Udp | Icmp

  datatype FiveTuple = FiveTuple(
    src: Option<int>, dst: Option<int>, protocol: Option<Protocol>, from: Option<int>, to: Option<int>)

  datatype Selector = InPort(port: PortNumber) | Matches(tuple: FiveTuple)

  datatype Treatment = Drop | ToGroup(vlan: nat, group: nat, transition: Option<nat>)

  /** Temporary with a timeout, or permanent. */
  datatype Rule = Rule(treatment: Treatment, timeout: Option<nat>)

  /** What identifies a rule: one with the same key replaces it, and removes it. */
  datatype Key = Key(device: DeviceId, table: nat, priority: nat, selector: Selector)

  datatype Kind = Mirror | Redirect

  datatype Slot = Slot(kind: Kind, device: DeviceId)

  /** The two pending dictionaries are one, by kind and device; `tunnels` is the tunnel service's own. */
  datatype State = State(
    snortPorts: map<DeviceId, map<Ip, PortNumber>>,
    pendingSnort: seq<Ip>,
    pending: map<Slot, seq<FiveTuple>>,
    dropRules: set<Key>,
    flows: map<Key, Rule>,
    tunnels: map<DeviceId, PortNumber>)

  datatype Call =
    | Await(ip: Ip)
    | Register(ip: Ip, at: ConnectPoint)
    | Remove(ip: Ip)
    | Clear
    | Send(kind: Kind, device: DeviceId, tuple: FiveTuple, timeout: int)
    | Unsend(kind: Kind, device: DeviceId, tuple: FiveTuple)
    | Block(device: DeviceId, tuple: FiveTuple, timeout: int)
    | Unblock(device: DeviceId, tuple: FiveTuple)

  // ----- Selectors -----

  /** The strings of a request once read: a wildcard, a number, or something that cannot be read. */
  datatype Text = Any | Number(n: int) | Unreadable

  /** The protocol is none when it is not the name of one of the three. */
  datatype Request = Request(src: Text, dst: Text, sport: Text, dport: Text, protocol: Option<Protocol>)

  function AsOption(t: Text): Option<int> {
    if t.Number? then Some(t.n) else None
  }

  /** Java's cast of an int to a byte. */
  function AsByte(n: int): int {
    (n + 128) % 256 - 128
  }

  function PortField(p: Protocol, t: Text): Option<int> {
    if t.Number? then Some(if p.Icmp? then AsByte(t.n) else t.n) else None
  }

  predicate Readable(r: Request) {
    && !r.src.Unreadable? && !r.dst.Unreadable?
    && (r.protocol.Some? ==> !r.sport.Unreadable? && !r.dport.Unreadable?)
  }

  /** No selector: an exception is thrown. */
  function CreateSelector(r: Request): Option<FiveTuple> {
    if !Readable(r) then None
    else match r.protocol
      case None => Some(FiveTuple(AsOption(r.src), AsOption(r.dst), None, None, None))
      case Some(p) =>
        Some(FiveTuple(AsOption(r.src), AsOption(r.dst), r.protocol, PortField(p, r.sport), PortField(p, r.dport)))
  }

  /** Two port fields that a selector cannot tell apart: ICMP types and codes wrap at 256. */
  predicate SamePort(p: Protocol, s: Text, t: Text) {
    s == t || (p.Icmp? && s.Number? && t.Number? && (s.n - t.n) % 256 == 0)
  }

  /** A request deletes the rule that another one added exactly if it means the same traffic. */
  lemma SameSelectorIff(r: Request, s: Request)
    requires Readable(r) && Readable(s)
    ensures CreateSelector(r) == CreateSelector(s) <==>
              && r.src == s.src && r.dst == s.dst && r.protocol == s.protocol
              && match r.protocol
                 case None => true
                 case Some(p) => SamePort(p, r.sport, s.sport) && SamePort(p, r.dport, s.dport)
  {
    if r.protocol.Some? && s.protocol.Some? {
      SameFieldIff(r.protocol.value, r.sport, s.sport);
      SameFieldIff(r.protocol.value, r.dport, s.dport);
    }
  }

  lemma SameFieldIff(p: Protocol, s: Text, t: Text)
    requires !s.Unreadable? && !t.Unreadable?
    ensures PortField(p, s) == PortField(p, t) <==> SamePort(p, s, t)
  {
  }

  /** What each part of a request asks of a packet: nothing, one number, or no selector at all. */
  lemma SelectorMeans(r: Request)
    ensures CreateSelector(r).None? <==>
              || r.src == Unreadable || r.dst == Unreadable
              || (r.protocol.Some? && (r.sport == Unreadable || r.dport == Unreadable))
    ensures CreateSelector(r).Some? ==>
              var t := CreateSelector(r).value;
              && (r.src == Any ==> t.src == None) && (forall n | r.src == Number(n) :: t.src == Some(n))
              && (r.dst == Any ==> t.dst == None) && (forall n | r.dst == Number(n) :: t.dst == Some(n))
              && t.protocol == r.protocol && (r.protocol.None? ==> t.from == None && t.to == None)
    ensures CreateSelector(r).Some? && r.protocol.Some? ==>
              var t := CreateSelector(r).value;
              && (r.sport == Any ==> t.from == None) && (r.dport == Any ==> t.to == None)
              && (forall n | r.sport == Number(n) :: t.from.Some? && IsPortField(r.protocol.value, n, t.from.value))
              && (forall n | r.dport == Number(n) :: t.to.Some? && IsPortField(r.protocol.value, n, t.to.value))
  {
  }

  /** A TCP or UDP port as it is; an ICMP type or code as a signed byte. */
  ghost predicate IsPortField(p: Protocol, n: int, field: int) {
    if p == Icmp then -128 <= field < 128 && (n - field) % 256 == 0 else field == n
  }

  // ----- The automaton -----

  function DropKey(device: DeviceId, port: PortNumber): Key {
    Key(device, BLOCK_TABLE, FLOW_PRIORITY, InPort(port))
  }

  function BlockKey(device: DeviceId, tuple: FiveTuple): Key {
    Key(device, BLOCK_TABLE, FLOW_PRIORITY, Matches(tuple))
  }

  /** A mirror rule and a redirect rule for the same traffic have the same key. */
  function TunnelKey(device: DeviceId, tuple: FiveTuple): Key {
    Key(device, TUNNEL_TABLE, FLOW_PRIORITY, Matches(tuple))
  }

  function Lifetime(timeout: int): Option<nat> {
    if timeout > 0 then Some(timeout) else None
  }

  function TunnelRule(kind: Kind, timeout: int): Rule {
    var transition := if kind.Mirror? then Some(CLEANSING_TABLE) else None;
    Rule(ToGroup(SNORT_VLAN_ID, SNORT_GROUP_ID, transition), Lifetime(timeout))
  }

  const DROP_RULE := Rule(Drop, None)

  // ----- What a rule does to a packet -----

  /** The packet is put on VLAN 500 and handed to group 500, whose bucket leads to a Snort. */
  predicate ReachesSnort(r: Rule) {
    r.treatment.ToGroup? && r.treatment.vlan == 500 && r.treatment.group == 500
  }

  /** The table in which the packet itself goes on; none, and it is forwarded no further. */
  function GoesOnIn(r: Rule): Option<nat> {
    match r.treatment
    case Drop => None
    case ToGroup(_, _, table) => table
  }

  /** A mirrored packet reaches Snort and goes on to cleansing, a redirected one only reaches Snort. */
  predicate SendsAs(r: Rule, kind: Kind, lifetime: Option<nat>) {
    && ReachesSnort(r) && r.timeout == lifetime
    && match kind
       case Mirror => GoesOnIn(r) == Some(20)
       case Redirect => GoesOnIn(r) == None
  }

  lemma TunnelRuleSends(kind: Kind, timeout: int)
    ensures timeout > 0 ==> SendsAs(TunnelRule(kind, timeout), kind, Some(timeout))
    ensures timeout <= 0 ==> SendsAs(TunnelRule(kind, timeout), kind, None)
  {
  }

  /** The rule that a device has in its tunnel table for some traffic. */
  function TunnelRuleAt(s: State, d: DeviceId, t: FiveTuple): Option<Rule> {
    var key := Key(d, 10, 10, Matches(t));
    if key in s.flows then Some(s.flows[key]) else None
  }

  function PendingAt(s: State, slot: Slot): seq<FiveTuple> {
    if slot in s.pending then s.pending[slot] else []
  }

  /** The rules for all pending selectors of a device. */
  function PendingRules(kind: Kind, device: DeviceId, tuples: seq<FiveTuple>): map<Key, Rule> {
    map t | t in tuples :: TunnelKey(device, t) := TunnelRule(kind, FLOW_TIMEOUT)
  }

  function Slots(device: DeviceId): set<Slot> {
    {Slot(Mirror, device), Slot(Redirect, device)}
  }

  function PortsOf(s: State, device: DeviceId): map<Ip, PortNumber> {
    if device in s.snortPorts then s.snortPorts[device] else map[]
  }

  /** The rules for a device need a port; one whose last Snort was removed has none, and throws. */
  predicate HasPort(snortPorts: map<DeviceId, map<Ip, PortNumber>>, device: DeviceId) {
    device in snortPorts ==> snortPorts[device] != map[]
  }

  /** ArrayList.remove: the first occurrence only. */
  function Without<T(==)>(xs: seq<T>, x: T): seq<T> {
    if xs == [] then [] else if xs[0] == x then xs[1..] else [xs[0]] + Without(xs[1..], x)
  }

  function Holders(s: State, ip: Ip): set<DeviceId> {
    set d | d in s.snortPorts && ip in s.snortPorts[d]
  }

  function DropKeysOf(s: State, ip: Ip): set<Key> {
    set d | d in s.snortPorts && ip in s.snortPorts[d] :: DropKey(d, s.snortPorts[d][ip])
  }

  function AllDropKeys(snortPorts: map<DeviceId, map<Ip, PortNumber>>): set<Key> {
    set d, ip | d in snortPorts && ip in snortPorts[d] :: DropKey(d, snortPorts[d][ip])
  }

  function Next(s: State, c: Call): State {
    match c
    case Await(ip) => if ip in s.pendingSnort then s else s.(pendingSnort := s.pendingSnort + [ip])
    case Register(ip, at) =>
      var d, key := at.device, DropKey(at.device, at.port);
      State(s.snortPorts[d := PortsOf(s, d)[ip := at.port]],
            s.pendingSnort,
            s.pending - Slots(d),
            s.dropRules + {key},
            s.flows[key := DROP_RULE] + PendingRules(Mirror, d, PendingAt(s, Slot(Mirror, d)))
                                      + PendingRules(Redirect, d, PendingAt(s, Slot(Redirect, d))),
            s.tunnels[d := at.port])
    case Remove(ip) =>
      State(map d | d in s.snortPorts :: s.snortPorts[d] - {ip},
            Without(s.pendingSnort, ip), s.pending,
            s.dropRules - DropKeysOf(s, ip), s.flows - DropKeysOf(s, ip), s.tunnels - Holders(s, ip))
    case Clear =>
      State(map[], [], s.pending, s.dropRules - AllDropKeys(s.snortPorts), s.flows - AllDropKeys(s.snortPorts), map[])
    case Send(kind, d, t, timeout) =>
      if !HasPort(s.snortPorts, d) then s
      else
        var slot := Slot(kind, d);
        s.(pending := if d in s.snortPorts then s.pending else s.pending[slot := PendingAt(s, slot) + [t]],
           flows := s.flows[TunnelKey(d, t) := TunnelRule(kind, timeout)])
    case Unsend(kind, d, t) =>
      if !HasPort(s.snortPorts, d) then s
      else
        var slot := Slot(kind, d);
        s.(pending := if slot in s.pending then s.pending[slot := Without(s.pending[slot], t)] else s.pending,
           flows := s.flows - {TunnelKey(d, t)})
    case Block(d, t, timeout) => s.(flows := s.flows[BlockKey(d, t) := Rule(Drop, Lifetime(timeout))])
    case Unblock(d, t) => s.(flows := s.flows - {BlockKey(d, t)})
  }

  function After(s: State, calls: seq<Call>): State {
    if calls == [] then s else Next(After(s, calls[..|calls| - 1]), calls[|calls| - 1])
  }

  const INITIAL := State(map[], [], map[], {}, map[], map[])

  lemma {:induction false} AfterConcat(s: State, calls: seq<Call>, more: seq<Call>)
    ensures After(s, calls + more) == After(After(s, calls), more)
    decreases |more|
  {
    if more == [] {
      assert calls + more == calls;
    } else {
      AfterConcat(s, calls, more[..|more| - 1]);
      assert (calls + more)[..|calls + more| - 1] == calls + more[..|more| - 1];
    }
  }

  lemma AfterAppend(s: State, calls: seq<Call>, c: Call)
    ensures After(s, calls + [c]) == Next(After(s, calls), c)
  {
    assert (calls + [c])[..|calls|] == calls;
  }

  // ----- What every run keeps -----

  /** No device has both a Snort and a pending list. */
  ghost predicate Exclusion(s: State) {
    forall slot | slot in s.pending :: slot.device !in s.snortPorts
  }

  /** The recorded drop rules are exactly those in the switches. */
  ghost predicate Recorded(s: State) {
    && (forall k | k in s.dropRules :: k.selector.InPort? && k == DropKey(k.device, k.selector.port))
    && (forall k: Key | k.selector.InPort? :: k in s.dropRules <==> k in s.flows)
    && (forall k | k in s.dropRules && k in s.flows :: s.flows[k] == DROP_RULE)
  }

  /** Every tunnel ends at a port on which a Snort is registered. */
  ghost predicate TunnelsEndAtSnort(s: State) {
    forall d {:trigger d in s.tunnels} | d in s.tunnels ::
      d in s.snortPorts && exists ip :: ip in s.snortPorts[d] && s.snortPorts[d][ip] == s.tunnels[d]
  }

  predicate Distinct<T(==)>(xs: seq<T>) {
    forall i, j | 0 <= i < j < |xs| :: xs[i] != xs[j]
  }

  ghost predicate Consistent(s: State) {
    Exclusion(s) && Recorded(s) && TunnelsEndAtSnort(s) && Distinct(s.pendingSnort)
  }

  lemma {:induction false} WithoutCounts<T>(xs: seq<T>, x: T)
    ensures multiset(Without(xs, x)) == multiset(xs) - multiset{x}
  {
    if xs != [] {
      assert xs == [xs[0]] + xs[1..];
      if xs[0] != x {
        WithoutCounts(xs[1..], x);
      }
    }
  }

  lemma {:induction false} WithoutKeepsDistinct<T>(xs: seq<T>, x: T)
    requires Distinct(xs)
    ensures Distinct(Without(xs, x))
    ensures forall y | y in Without(xs, x) :: y in xs
  {
    if xs != [] && xs[0] != x {
      var rest := Without(xs[1..], x);
      WithoutKeepsDistinct(xs[1..], x);
      forall i, j | 0 <= i < j < 1 + |rest| ensures ([xs[0]] + rest)[i] != ([xs[0]] + rest)[j] {
        assert rest[j - 1] in xs[1..];
      }
    }
  }

  lemma ExclusionIsKept(s: State, c: Call)
    requires Exclusion(s)
    ensures Exclusion(Next(s, c))
  {
    var s' := Next(s, c);
    forall slot | slot in s'.pending ensures slot.device !in s'.snortPorts {
      assert slot == Slot(slot.kind, slot.device);
      assert slot.kind.Mirror? || slot.kind.Redirect?;
    }
  }

  lemma RegisterKeepsRecorded(s: State, ip: Ip, at: ConnectPoint)
    requires Recorded(s)
    ensures Recorded(Next(s, Register(ip, at)))
  {
    hide PendingRules, PendingAt;
    PendingRulesMatchTraffic(Mirror, at.device, PendingAt(s, Slot(Mirror, at.device)));
    PendingRulesMatchTraffic(Redirect, at.device, PendingAt(s, Slot(Redirect, at.device)));
  }

  lemma PendingRulesMatchTraffic(kind: Kind, device: DeviceId, tuples: seq<FiveTuple>)
    ensures forall k | k in PendingRules(kind, device, tuples) :: k.selector.Matches?
  {
  }

  lemma RecordedIsKept(s: State, c: Call)
    requires Recorded(s)
    ensures Recorded(Next(s, c))
  {
    if c.Register? {
      RegisterKeepsRecorded(s, c.ip, c.at);
    }
  }

  lemma TunnelsAreKept(s: State, c: Call)
    requires TunnelsEndAtSnort(s)
    ensures TunnelsEndAtSnort(Next(s, c))
  {
    var s' := Next(s, c);
    forall d | d in s'.tunnels
      ensures d in s'.snortPorts && exists ip :: ip in s'.snortPorts[d] && s'.snortPorts[d][ip] == s'.tunnels[d]
    {
      if c.Register? && d == c.at.device {
        assert s'.snortPorts[d][c.ip] == s'.tunnels[d];
      } else {
        var ip :| ip in s.snortPorts[d] && s.snortPorts[d][ip] == s.tunnels[d];
        if c.Remove? {
          assert ip in s'.snortPorts[d];
        }
      }
    }
  }

  lemma {:induction false} RunsAreConsistent(calls: seq<Call>)
    ensures Consistent(After(INITIAL, calls))
  {
    if calls != [] {
      var front, c := calls[..|calls| - 1], calls[|calls| - 1];
      RunsAreConsistent(front);
      var s := After(INITIAL, front);
      ExclusionIsKept(s, c);
      RecordedIsKept(s, c);
      TunnelsAreKept(s, c);
      if c.Remove? {
        WithoutKeepsDistinct(s.pendingSnort, c.ip);
      }
    }
  }

  // ----- Registrations, tunnels and awaited Snorts by positions -----

  /** The call makes the Snort leave the port that it has on a device. */
  ghost predicate EndsRegistration(c: Call, ip: Ip, d: DeviceId) {
    c == Remove(ip) || c == Clear || (c.Register? && c.ip == ip && c.at.device == d)
  }

  /** Of the first `n` calls, the i-th was the last to put the Snort on the device, and none has ended that. */
  ghost predicate RegisteredBy(calls: seq<Call>, n: nat, ip: Ip, d: DeviceId, i: nat)
    requires i < n <= |calls|
  {
    && calls[i].Register? && calls[i].ip == ip && calls[i].at.device == d
    && forall j | i < j < n :: !EndsRegistration(calls[j], ip, d)
  }

  lemma PortsStep(s: State, c: Call, ip: Ip, d: DeviceId)
    ensures ip in PortsOf(Next(s, c), d) <==>
              (c.Register? && c.ip == ip && c.at.device == d) || (ip in PortsOf(s, d) && !EndsRegistration(c, ip, d))
    ensures ip in PortsOf(Next(s, c), d) ==>
              PortsOf(Next(s, c), d)[ip] == if c.Register? && c.ip == ip && c.at.device == d then c.at.port
                                            else PortsOf(s, d)[ip]
  {
  }

  /** After any run a Snort has on a device the port it was last registered at, if nothing has ended that since. */
  lemma {:induction false} RegistrationsByPosition(calls: seq<Call>, n: nat, ip: Ip, d: DeviceId)
    requires n <= |calls|
    ensures ip in PortsOf(After(INITIAL, calls[..n]), d) <==>
              exists i: nat :: i < n && RegisteredBy(calls, n, ip, d, i)
    ensures forall i: nat | i < n && RegisteredBy(calls, n, ip, d, i) ::
              ip in PortsOf(After(INITIAL, calls[..n]), d)
              && PortsOf(After(INITIAL, calls[..n]), d)[ip] == calls[i].at.port
  {
    hide Next, PortsOf, EndsRegistration;
    if n == 0 {
      NoPorts(ip, d);
    } else {
      var m := n - 1;
      RegistrationsByPosition(calls, m, ip, d);
      assert calls[..n][..m] == calls[..m];
      PortsStep(After(INITIAL, calls[..m]), calls[m], ip, d);
      forall i: nat | i < m
        ensures RegisteredBy(calls, n, ip, d, i) <==>
                  RegisteredBy(calls, m, ip, d, i) && !EndsRegistration(calls[m], ip, d)
      {
      }
      if calls[m].Register? && calls[m].ip == ip && calls[m].at.device == d {
        RegisteringEnds(calls[m], ip, d);
      }
      assert RegisteredBy(calls, n, ip, d, m) <==>
               calls[m].Register? && calls[m].ip == ip && calls[m].at.device == d;
    }
  }

  lemma NoPorts(ip: Ip, d: DeviceId)
    ensures ip !in PortsOf(INITIAL, d)
  {
  }

  lemma RegisteringEnds(c: Call, ip: Ip, d: DeviceId)
    requires c.Register? && c.ip == ip && c.at.device == d
    ensures EndsRegistration(c, ip, d)
  {
  }

  /** Of the first `n` calls, the i-th awaited the Snort, and it has not been removed since. */
  ghost predicate AwaitedBy(calls: seq<Call>, n: nat, ip: Ip, i: nat)
    requires i < n <= |calls|
  {
    calls[i] == Await(ip) && forall j | i < j < n :: calls[j] != Remove(ip) && calls[j] != Clear
  }

  lemma {:induction false} WithoutTakesOut<T>(xs: seq<T>, x: T, y: T)
    requires Distinct(xs)
    ensures y in Without(xs, x) <==> y in xs && y != x
  {
    if xs != [] {
      assert xs == [xs[0]] + xs[1..];
      WithoutTakesOut(xs[1..], x, y);
    }
  }

  lemma AwaitStep(s: State, c: Call, ip: Ip)
    requires Distinct(s.pendingSnort)
    ensures ip in Next(s, c).pendingSnort <==>
              c == Await(ip) || (ip in s.pendingSnort && c != Remove(ip) && c != Clear)
  {
    hide Distinct;
    if c.Remove? {
      WithoutTakesOut(s.pendingSnort, c.ip, ip);
    }
  }

  /** A Snort is awaited exactly if it has been named, and neither it nor all Snorts were removed since. */
  lemma {:induction false} AwaitedByPosition(calls: seq<Call>, n: nat, ip: Ip)
    requires n <= |calls|
    ensures ip in After(INITIAL, calls[..n]).pendingSnort <==> exists i: nat :: i < n && AwaitedBy(calls, n, ip, i)
  {
    hide Next;
    if n > 0 {
      var m := n - 1;
      AwaitedByPosition(calls, m, ip);
      RunsAreConsistent(calls[..m]);
      assert calls[..n][..m] == calls[..m];
      AwaitStep(After(INITIAL, calls[..m]), calls[m], ip);
      forall i: nat | i < m
        ensures AwaitedBy(calls, n, ip, i) <==>
                  AwaitedBy(calls, m, ip, i) && calls[m] != Remove(ip) && calls[m] != Clear
      {
      }
      assert AwaitedBy(calls, n, ip, m) <==> calls[m] == Await(ip);
    }
  }

  /** The call takes down the tunnel of a device, or puts up another: any Snort there may be the one removed. */
  ghost predicate EndsTunnel(s: State, c: Call, d: DeviceId) {
    c == Clear || (c.Register? && c.at.device == d) || (c.Remove? && c.ip in PortsOf(s, d))
  }

  /** Of the first `n` calls, the i-th was the last to register a Snort on the device, and its tunnel stands. */
  ghost predicate TunnelledBy(calls: seq<Call>, n: nat, d: DeviceId, i: nat)
    requires i < n <= |calls|
  {
    && calls[i].Register? && calls[i].at.device == d
    && forall j | i < j < n :: !EndsTunnel(After(INITIAL, calls[..j]), calls[j], d)
  }

  function TunnelOf(s: State, d: DeviceId): Option<PortNumber> {
    if d in s.tunnels then Some(s.tunnels[d]) else None
  }

  lemma TunnelStep(s: State, c: Call, d: DeviceId)
    ensures TunnelOf(Next(s, c), d) == if c.Register? && c.at.device == d then Some(c.at.port)
                                       else if EndsTunnel(s, c, d) then None
                                       else TunnelOf(s, d)
  {
  }

  /** A device has a tunnel to the port last registered there, until a Snort of the device is removed. */
  lemma {:induction false} TunnelsByPosition(calls: seq<Call>, n: nat, d: DeviceId) returns (i: nat)
    requires n <= |calls|
    ensures TunnelOf(After(INITIAL, calls[..n]), d).None? ==> forall k: nat | k < n :: !TunnelledBy(calls, n, d, k)
    ensures TunnelOf(After(INITIAL, calls[..n]), d).Some? ==>
              i < n && TunnelledBy(calls, n, d, i) && TunnelOf(After(INITIAL, calls[..n]), d).value == calls[i].at.port
  {
    hide Next, TunnelOf, EndsTunnel;
    i := 0;
    if n == 0 {
      NoTunnel(d);
    } else {
      var m := n - 1;
      i := TunnelsByPosition(calls, m, d);
      assert calls[..n][..m] == calls[..m];
      TunnelStep(After(INITIAL, calls[..m]), calls[m], d);
      if calls[m].Register? && calls[m].at.device == d {
        i := m;
      } else if EndsTunnel(After(INITIAL, calls[..m]), calls[m], d) {
        assert forall k: nat | k < n :: !TunnelledBy(calls, n, d, k);
      } else {
        forall k: nat | k < n && TunnelledBy(calls, n, d, k) ensures k < m && TunnelledBy(calls, m, d, k) {
        }
      }
    }
  }

  lemma NoTunnel(d: DeviceId)
    ensures TunnelOf(INITIAL, d).None?
  {
  }

  /** A device is known from the first Snort that is registered there until all Snorts are cleared. */
  lemma {:induction false} KnownByPosition(calls: seq<Call>, n: nat, d: DeviceId)
    requires n <= |calls|
    ensures d in After(INITIAL, calls[..n]).snortPorts <==> exists i: nat :: i < n && KnownBy(calls, n, d, i)
  {
    if n > 0 {
      var m := n - 1;
      KnownByPosition(calls, m, d);
      assert calls[..n][..m] == calls[..m];
      KnownStep(After(INITIAL, calls[..m]), calls[m], d);
      hide Next;
      forall i: nat | i < m ensures KnownBy(calls, n, d, i) <==> KnownBy(calls, m, d, i) && calls[m] != Clear {
      }
      assert KnownBy(calls, n, d, m) <==> calls[m].Register? && calls[m].at.device == d;
    }
  }

  ghost predicate KnownBy(calls: seq<Call>, n: nat, d: DeviceId, i: nat)
    requires i < n <= |calls|
  {
    calls[i].Register? && calls[i].at.device == d && forall j | i < j < n :: calls[j] != Clear
  }

  lemma KnownStep(s: State, c: Call, d: DeviceId)
    ensures d in Next(s, c).snortPorts <==>
              (c.Register? && c.at.device == d) || (d in s.snortPorts && c != Clear)
  {
  }

  /** A rule for a device fails exactly if the device is known and none of its Snorts is left. */
  lemma HasPortIff(s: State, d: DeviceId)
    ensures HasPort(s.snortPorts, d) <==> d !in s.snortPorts || exists ip :: ip in PortsOf(s, d)
  {
    if d in s.snortPorts && s.snortPorts[d] != map[] {
      assert s.snortPorts[d].Keys != {};
      var ip :| ip in s.snortPorts[d].Keys;
      assert ip in PortsOf(s, d);
    }
  }

  // ----- Drop rules against registered ports -----

  ghost predicate RegisteredAt(s: State, d: DeviceId, port: PortNumber) {
    d in s.snortPorts && exists ip :: ip in s.snortPorts[d] && s.snortPorts[d][ip] == port
  }

  /** Every registered port has its drop rule in force. */
  ghost predicate Protected(s: State) {
    forall d, ip {:trigger s.snortPorts[d][ip]} | d in s.snortPorts && ip in s.snortPorts[d] ::
      DropKey(d, s.snortPorts[d][ip]) in s.flows
  }

  /** Every drop rule belongs to a registered port. */
  ghost predicate Lean(s: State) {
    forall k {:trigger k in s.flows} | k in s.flows && k.selector.InPort? :: RegisteredAt(s, k.device, k.selector.port)
  }

  /** On some device another Snort uses the same port as this one. */
  ghost predicate Shares(s: State, ip: Ip) {
    exists d, other {:trigger s.snortPorts[d][other]} ::
      d in s.snortPorts && ip in s.snortPorts[d] && other in s.snortPorts[d]
      && other != ip && s.snortPorts[d][other] == s.snortPorts[d][ip]
  }

  /** Registering moves the Snort away from a port of the device that no other Snort uses. */
  ghost predicate Strands(s: State, ip: Ip, at: ConnectPoint) {
    var ports := PortsOf(s, at.device);
    ip in ports && ports[ip] != at.port && forall other | other in ports && other != ip :: ports[other] != ports[ip]
  }

  ghost predicate LosesProtection(s: State, c: Call) {
    c.Remove? && Shares(s, c.ip)
  }

  ghost predicate LeavesRule(s: State, c: Call) {
    c.Register? && Strands(s, c.ip, c.at)
  }

  lemma StaysProtectedIff(s: State, c: Call)
    requires Protected(s)
    ensures Protected(Next(s, c)) <==> !LosesProtection(s, c)
  {
    if LosesProtection(s, c) {
      RemovingLosesProtection(s, c.ip);
    } else {
      StaysProtected(s, c);
    }
  }

  lemma RemovingLosesProtection(s: State, ip: Ip)
    requires Shares(s, ip)
    ensures !Protected(Next(s, Remove(ip)))
  {
    var s' := Next(s, Remove(ip));
    var d, other :| d in s.snortPorts && ip in s.snortPorts[d] && other in s.snortPorts[d]
                 && other != ip && s.snortPorts[d][other] == s.snortPorts[d][ip];
    assert other in s'.snortPorts[d] && s'.snortPorts[d][other] == s.snortPorts[d][other];
    assert DropKey(d, s.snortPorts[d][ip]) in DropKeysOf(s, ip);
  }

  lemma StaysProtected(s: State, c: Call)
    requires Protected(s) && !LosesProtection(s, c)
    ensures Protected(Next(s, c))
  {
    var s' := Next(s, c);
    forall d, ip | d in s'.snortPorts && ip in s'.snortPorts[d]
      ensures DropKey(d, s'.snortPorts[d][ip]) in s'.flows
    {
      if c.Register? && d == c.at.device {
        assert ip != c.ip ==> s'.snortPorts[d][ip] == s.snortPorts[d][ip];
      } else {
        assert s'.snortPorts[d][ip] == s.snortPorts[d][ip];
      }
    }
  }

  lemma StaysLeanIff(s: State, c: Call)
    requires Recorded(s) && Lean(s) && Protected(s)
    ensures Lean(Next(s, c)) <==> !LeavesRule(s, c)
  {
    if LeavesRule(s, c) {
      MovingLeavesRule(s, c.ip, c.at);
    } else {
      StaysLean(s, c);
    }
  }

  lemma MovingLeavesRule(s: State, ip: Ip, at: ConnectPoint)
    requires Protected(s) && Strands(s, ip, at)
    ensures !Lean(Next(s, Register(ip, at)))
  {
    var d, former := at.device, s.snortPorts[at.device][ip];
    var s' := Next(s, Register(ip, at));
    assert DropKey(d, former) in s'.flows;
  }

  lemma StaysLean(s: State, c: Call)
    requires Recorded(s) && Lean(s) && !LeavesRule(s, c)
    ensures Lean(Next(s, c))
  {
    var s' := Next(s, c);
    forall k | k in s'.flows && k.selector.InPort?
      ensures RegisteredAt(s', k.device, k.selector.port)
    {
      if c.Register? && k == DropKey(c.at.device, c.at.port) {
        assert s'.snortPorts[k.device][c.ip] == c.at.port;
      } else {
        assert k in s.flows;
        StaysRegistered(s, c, k);
      }
    }
  }

  lemma StaysRegistered(s: State, c: Call, k: Key)
    requires Recorded(s) && Lean(s) && !LeavesRule(s, c)
    requires k in s.flows && k in Next(s, c).flows && k.selector.InPort?
    ensures RegisteredAt(Next(s, c), k.device, k.selector.port)
  {
    var s', d := Next(s, c), k.device;
    assert RegisteredAt(s, d, k.selector.port);
    var ip :| ip in s.snortPorts[d] && s.snortPorts[d][ip] == k.selector.port;
    assert k == DropKey(d, s.snortPorts[d][ip]);
    assert k in AllDropKeys(s.snortPorts);
    if c.Register? && c.at.device == d && c.ip == ip && c.at.port != k.selector.port {
      var other :| other in s.snortPorts[d] && other != ip && s.snortPorts[d][other] == s.snortPorts[d][ip];
      assert s'.snortPorts[d][other] == k.selector.port;
    } else if c.Remove? {
      assert ip != c.ip;
      assert s'.snortPorts[d][ip] == k.selector.port;
    } else if c.Clear? {
      assert false;
    } else {
      assert s'.snortPorts[d][ip] == k.selector.port;
    }
  }

  /** Drop rules cover the registered ports and, if asked for, nothing else. */
  ghost predicate Agree(s: State, exactly: bool) {
    Protected(s) && (exactly ==> Lean(s))
  }

  /** What that means for packets: those that come from a Snort's port are dropped for good, and no others. */
  lemma AgreeMeans(s: State, exactly: bool, d: DeviceId, port: PortNumber)
    requires Consistent(s) && Agree(s, exactly)
    ensures var key := Key(d, 100, 10, InPort(port));
            && (RegisteredAt(s, d, port) ==> key in s.flows && s.flows[key] == Rule(Drop, None))
            && (exactly && key in s.flows ==> RegisteredAt(s, d, port))
  {
    assert DropKey(d, port) == Key(d, 100, 10, InPort(port));
    if RegisteredAt(s, d, port) {
      var ip :| ip in s.snortPorts[d] && s.snortPorts[d][ip] == port;
      assert DropKey(d, s.snortPorts[d][ip]) in s.flows;
    }
  }

  ghost predicate Spoils(s: State, c: Call, exactly: bool) {
    LosesProtection(s, c) || (exactly && LeavesRule(s, c))
  }

  ghost predicate AgreeAfter(calls: seq<Call>, i: nat, exactly: bool)
    requires i <= |calls|
  {
    Agree(After(INITIAL, calls[..i]), exactly)
  }

  ghost predicate SpoiledAt(calls: seq<Call>, i: nat, exactly: bool)
    requires i < |calls|
  {
    Spoils(After(INITIAL, calls[..i]), calls[i], exactly)
  }

  /**
   * Over whole runs. The ports of all Snorts stay protected throughout exactly if no Snort is
   * removed while another one uses its port. Besides, no drop rule outlives its Snort exactly if
   * none moves away from a port it had to itself.
   */
  lemma {:induction false} AgreeThroughoutIff(calls: seq<Call>, exactly: bool)
    ensures (forall i | 0 <= i <= |calls| :: AgreeAfter(calls, i, exactly))
       <==> (forall i | 0 <= i < |calls| :: !SpoiledAt(calls, i, exactly))
  {
    hide Next, Agree, Spoils, After;
    if calls == [] {
      InitiallyAgree(calls, exactly);
    } else {
      var front := calls[..|calls| - 1];
      AgreeThroughoutIff(front, exactly);
      forall i | 0 <= i <= |front| ensures AgreeAfter(front, i, exactly) <==> AgreeAfter(calls, i, exactly) {
        assert front[..i] == calls[..i];
      }
      forall i | 0 <= i < |front| ensures SpoiledAt(front, i, exactly) <==> SpoiledAt(calls, i, exactly) {
        assert front[..i] == calls[..i];
      }
      AgreeStep(calls, exactly);
    }
  }

  lemma InitiallyAgree(calls: seq<Call>, exactly: bool)
    requires calls == []
    ensures AgreeAfter(calls, 0, exactly)
  {
  }

  lemma AgreeStep(calls: seq<Call>, exactly: bool)
    requires calls != []
    ensures AgreeAfter(calls, |calls| - 1, exactly) ==>
              (AgreeAfter(calls, |calls|, exactly) <==> !SpoiledAt(calls, |calls| - 1, exactly))
  {
    hide Next, Protected, Lean, LosesProtection, LeavesRule;
    var n := |calls| - 1;
    assert calls[..|calls|] == calls;
    if AgreeAfter(calls, n, exactly) {
      var s := After(INITIAL, calls[..n]);
      RunsAreConsistent(calls[..n]);
      StaysProtectedIff(s, calls[n]);
      if exactly {
        StaysLeanIff(s, calls[n]);
      }
    }
  }

  /** Two Snorts behind one port: removing the first lets the second's copies through. */
  lemma SharedPortLosesDropRule(ip: Ip, other: Ip, at: ConnectPoint)
    requires ip != other
    ensures var s := After(INITIAL, [Register(ip, at), Register(other, at), Remove(ip)]);
            PortsOf(s, at.device) == map[other := at.port] && DropKey(at.device, at.port) !in s.flows
  {
    AfterThree(INITIAL, Register(ip, at), Register(other, at), Remove(ip));
    hide After;
    var both := Next(Next(INITIAL, Register(ip, at)), Register(other, at));
    assert both.snortPorts[at.device] == map[ip := at.port, other := at.port];
    assert DropKey(at.device, at.port) in DropKeysOf(both, ip);
  }

  lemma AfterThree(s: State, a: Call, b: Call, c: Call)
    ensures After(s, [a, b, c]) == Next(Next(Next(s, a), b), c)
  {
    hide Next;
    AfterAppend(s, [], a);
    AfterAppend(s, [a], b);
    AfterAppend(s, [a, b], c);
    assert [] + [a] == [a] && [a] + [b] == [a, b] && [a, b] + [c] == [a, b, c];
  }

  // ----- Pending rules -----

  /** When a Snort appears, every pending selector of its device is installed; redirecting wins. */
  lemma PendingIsInstalled(s: State, ip: Ip, at: ConnectPoint, t: FiveTuple)
    ensures var s' := Next(s, Register(ip, at));
            var mirrored := t in PendingAt(s, Slot(Mirror, at.device));
            var redirected := t in PendingAt(s, Slot(Redirect, at.device));
            var rule := TunnelRuleAt(s', at.device, t);
            && (redirected ==> rule.Some? && SendsAs(rule.value, Redirect, Some(10)))
            && (mirrored && !redirected ==> rule.Some? && SendsAs(rule.value, Mirror, Some(10)))
            && (!mirrored && !redirected ==> rule == TunnelRuleAt(s, at.device, t))
            && Slots(at.device) !! s'.pending.Keys
  {
    TunnelRuleSends(Mirror, 10);
    TunnelRuleSends(Redirect, 10);
  }

  /** The call takes the selector off the pending list, or empties the list for a Snort. */
  predicate Settles(c: Call, kind: Kind, d: DeviceId, t: FiveTuple) {
    match c
    case Register(_, at) => at.device == d
    case Unsend(k, device, tuple) => k == kind && device == d && tuple == t
    case _ => false
  }

  lemma StaysPending(s: State, c: Call, kind: Kind, d: DeviceId, t: FiveTuple)
    requires t in PendingAt(s, Slot(kind, d)) && !Settles(c, kind, d, t)
    ensures t in PendingAt(Next(s, c), Slot(kind, d))
  {
    if c.Unsend? {
      WithoutCounts(PendingAt(s, Slot(kind, d)), c.tuple);
      assert multiset(PendingAt(s, Slot(kind, d)))[t] >= 1;
      assert multiset(Without(PendingAt(s, Slot(kind, d)), c.tuple))[t] >= 1 || c.tuple == t;
    }
  }

  lemma {:induction false} StaysPendingOverRun(s: State, calls: seq<Call>, kind: Kind, d: DeviceId, t: FiveTuple)
    requires t in PendingAt(s, Slot(kind, d)) && forall c | c in calls :: !Settles(c, kind, d, t)
    ensures t in PendingAt(After(s, calls), Slot(kind, d))
  {
    hide Next, PendingAt;
    if calls != [] {
      var front, c := calls[..|calls| - 1], calls[|calls| - 1];
      assert c in calls && forall x | x in front :: x in calls;
      StaysPendingOverRun(s, front, kind, d, t);
      StaysPending(After(s, front), c, kind, d, t);
    }
  }

  /**
   * Over runs: a rule asked for on a device without a Snort is in force once a Snort appears
   * there, whatever happens in between, unless it was asked to be deleted.
   */
  lemma PendingRuleIsInstalled(s: State, kind: Kind, d: DeviceId, t: FiveTuple, timeout: int, more: seq<Call>,
                               ip: Ip, port: PortNumber)
    requires d !in s.snortPorts && forall c | c in more :: !Settles(c, kind, d, t)
    ensures var run := [Send(kind, d, t, timeout)] + more + [Register(ip, ConnectPoint(d, port))];
            var rule := TunnelRuleAt(After(s, run), d, t);
            && rule.Some?
            && (SendsAs(rule.value, kind, Some(10)) || (kind.Mirror? && SendsAs(rule.value, Redirect, Some(10))))
  {
    hide Next, PendingAt, TunnelRule, SendsAs, TunnelRuleAt;
    var send, register := Send(kind, d, t, timeout), Register(ip, ConnectPoint(d, port));
    AfterConcat(s, [send], more);
    AfterAppend(s, [], send);
    assert [] + [send] == [send];
    AfterAppend(s, [send] + more, register);
    SendStep(s, kind, d, t, timeout, Slot(kind, d));
    StaysPendingOverRun(Next(s, send), more, kind, d, t);
    PendingIsInstalled(After(s, [send] + more), ip, ConnectPoint(d, port), t);
  }

  lemma InstalledIfPending(s: State, ip: Ip, at: ConnectPoint, t: FiveTuple)
    requires TunnelKey(at.device, t) !in s.flows
    ensures TunnelKey(at.device, t) in Next(s, Register(ip, at)).flows <==>
              t in PendingAt(s, Slot(Mirror, at.device)) || t in PendingAt(s, Slot(Redirect, at.device))
  {
  }

  lemma UnsendStep(s: State, kind: Kind, d: DeviceId, t: FiveTuple, slot: Slot)
    requires HasPort(s.snortPorts, d)
    ensures var s' := Next(s, Unsend(kind, d, t));
            && s'.snortPorts == s.snortPorts && s'.flows == s.flows - {TunnelKey(d, t)}
            && PendingAt(s', slot) == if slot == Slot(kind, d) then Without(PendingAt(s, slot), t)
                                      else PendingAt(s, slot)
  {
  }

  function UnsendAll(kind: Kind, devices: seq<DeviceId>, t: FiveTuple): seq<Call> {
    seq(|devices|, i requires 0 <= i < |devices| => Unsend(kind, devices[i], t))
  }

  function BlockAll(devices: seq<DeviceId>, t: FiveTuple, timeout: int): seq<Call> {
    seq(|devices|, i requires 0 <= i < |devices| => Block(devices[i], t, timeout))
  }

  function UnblockAll(devices: seq<DeviceId>, t: FiveTuple): seq<Call> {
    seq(|devices|, i requires 0 <= i < |devices| => Unblock(devices[i], t))
  }

  lemma {:induction false} UnsendAllTakesOne(s: State, kind: Kind, devices: seq<DeviceId>, t: FiveTuple, slot: Slot)
    requires Distinct(devices) && forall i | 0 <= i < |devices| :: HasPort(s.snortPorts, devices[i])
    ensures var s' := After(s, UnsendAll(kind, devices, t));
            && s'.snortPorts == s.snortPorts
            && s'.flows.Keys == s.flows.Keys - (set d | d in devices :: TunnelKey(d, t))
            && PendingAt(s', slot) == if slot.kind == kind && slot.device in devices then Without(PendingAt(s, slot), t)
                                      else PendingAt(s, slot)
  {
    hide Next, PendingAt, HasPort;
    if devices != [] {
      var front, last := devices[..|devices| - 1], devices[|devices| - 1];
      UnsendAllTakesOne(s, kind, front, t, slot);
      assert UnsendAll(kind, devices, t) == UnsendAll(kind, front, t) + [Unsend(kind, last, t)];
      AfterAppend(s, UnsendAll(kind, front, t), Unsend(kind, last, t));
      assert devices == front + [last];
      UnsendStep(After(s, UnsendAll(kind, front, t)), kind, last, t, slot);
    }
  }

  /** Both kinds of rule for some traffic are deleted on the devices, as adding a block rule does. */
  function Withdraw(s: State, devices: seq<DeviceId>, t: FiveTuple): State {
    After(After(s, UnsendAll(Redirect, devices, t)), UnsendAll(Mirror, devices, t))
  }

  lemma WithdrawTakesOne(s: State, devices: seq<DeviceId>, t: FiveTuple, slot: Slot)
    requires Distinct(devices) && forall i | 0 <= i < |devices| :: HasPort(s.snortPorts, devices[i])
    requires slot.device in devices
    ensures Withdraw(s, devices, t).flows.Keys == s.flows.Keys - (set d | d in devices :: TunnelKey(d, t))
    ensures multiset(PendingAt(Withdraw(s, devices, t), slot)) == multiset(PendingAt(s, slot)) - multiset{t}
  {
    hide After, PendingAt, HasPort;
    UnsendAllTakesOne(s, Redirect, devices, t, slot);
    UnsendAllTakesOne(After(s, UnsendAll(Redirect, devices, t)), Mirror, devices, t, slot);
    WithoutCounts(PendingAt(s, slot), t);
  }

  /**
   * Traffic withdrawn from Snort on all devices is sent to it again, once a Snort appears on one
   * of them, exactly if it was pending there more than once: deleting takes off one occurrence.
   */
  lemma WithdrawnTrafficReturnsIff(s: State, devices: seq<DeviceId>, t: FiveTuple, ip: Ip, at: ConnectPoint)
    requires Distinct(devices) && forall i | 0 <= i < |devices| :: HasPort(s.snortPorts, devices[i])
    requires at.device in devices
    ensures TunnelKey(at.device, t) in Next(Withdraw(s, devices, t), Register(ip, at)).flows <==>
              || multiset(PendingAt(s, Slot(Mirror, at.device)))[t] >= 2
              || multiset(PendingAt(s, Slot(Redirect, at.device)))[t] >= 2
  {
    hide Next, PendingAt, Withdraw;
    var d, s1 := at.device, Withdraw(s, devices, t);
    WithdrawTakesOne(s, devices, t, Slot(Mirror, d));
    WithdrawTakesOne(s, devices, t, Slot(Redirect, d));
    assert TunnelKey(d, t) !in s1.flows.Keys;
    assert t in PendingAt(s1, Slot(Mirror, d)) <==> multiset(PendingAt(s1, Slot(Mirror, d)))[t] >= 1;
    assert t in PendingAt(s1, Slot(Redirect, d)) <==> multiset(PendingAt(s1, Slot(Redirect, d)))[t] >= 1;
    InstalledIfPending(s1, ip, at, t);
  }

  lemma BlockStep(s: State, d: DeviceId, t: FiveTuple, timeout: int)
    ensures Next(s, Block(d, t, timeout)) == s.(flows := s.flows[BlockKey(d, t) := Rule(Drop, Lifetime(timeout))])
  {
  }

  /** Blocking drops the traffic on each device and leaves tunnel rules and pending lists alone. */
  lemma {:induction false} BlockingDrops(s: State, devices: seq<DeviceId>, t: FiveTuple, timeout: int)
    ensures var s' := After(s, BlockAll(devices, t, timeout));
            && s' == s.(flows := s'.flows)
            && (forall d | d in devices ::
                  var key := Key(d, 100, 10, Matches(t));
                  key in s'.flows && s'.flows[key] == Rule(Drop, if timeout > 0 then Some(timeout) else None))
            && (forall k: Key | k.selector.InPort? || k.table != BLOCK_TABLE ::
                  (k in s'.flows <==> k in s.flows) && (k in s.flows ==> s'.flows[k] == s.flows[k]))
  {
    hide Next;
    if devices != [] {
      var front, last := devices[..|devices| - 1], devices[|devices| - 1];
      BlockingDrops(s, front, t, timeout);
      assert BlockAll(devices, t, timeout) == BlockAll(front, t, timeout) + [Block(last, t, timeout)];
      AfterAppend(s, BlockAll(front, t, timeout), Block(last, t, timeout));
      BlockStep(After(s, BlockAll(front, t, timeout)), last, t, timeout);
      assert devices == front + [last];
    }
  }

  lemma UnblockStep(s: State, d: DeviceId, t: FiveTuple)
    ensures Next(s, Unblock(d, t)) == s.(flows := s.flows - {Key(d, 100, 10, Matches(t))})
  {
  }

  /** Lifting a block takes away the block rules of the devices, and nothing else. */
  lemma {:induction false} UnblockingLifts(s: State, devices: seq<DeviceId>, t: FiveTuple)
    ensures After(s, UnblockAll(devices, t))
         == s.(flows := s.flows - set d | d in devices :: Key(d, 100, 10, Matches(t)))
  {
    hide Next;
    if devices == [] {
      assert s.flows - (set d | d in devices :: Key(d, 100, 10, Matches(t))) == s.flows;
    } else {
      var front, last := devices[..|devices| - 1], devices[|devices| - 1];
      UnblockingLifts(s, front, t);
      assert UnblockAll(devices, t) == UnblockAll(front, t) + [Unblock(last, t)];
      AfterAppend(s, UnblockAll(front, t), Unblock(last, t));
      UnblockStep(After(s, UnblockAll(front, t)), last, t);
      assert devices == front + [last];
      var keys := set d | d in front :: Key(d, 100, 10, Matches(t));
      assert (set d | d in devices :: Key(d, 100, 10, Matches(t))) == keys + {Key(last, 100, 10, Matches(t))};
      assert s.flows - keys - {Key(last, 100, 10, Matches(t))} == s.flows - (keys + {Key(last, 100, 10, Matches(t))});
    }
  }

  /** One request, sent to a list of devices. */
  function SendAll(kind: Kind, devices: seq<DeviceId>, t: FiveTuple, timeout: int): seq<Call> {
    seq(|devices|, i requires 0 <= i < |devices| => Send(kind, devices[i], t, timeout))
  }

  lemma SendStep(s: State, kind: Kind, d: DeviceId, t: FiveTuple, timeout: int, slot: Slot)
    ensures var s' := Next(s, Send(kind, d, t, timeout));
            && s'.snortPorts == s.snortPorts
            && PendingAt(s', slot)
               == PendingAt(s, slot) + (if slot == Slot(kind, d) && d !in s.snortPorts then [t] else [])
            && s'.flows == if HasPort(s.snortPorts, d) then s.flows[TunnelKey(d, t) := TunnelRule(kind, timeout)]
                           else s.flows
  {
  }

  /** A device named several times, once for each of its matching flows, is given as many pending entries. */
  lemma {:induction false} PendingCountsEveryMention(s: State, kind: Kind, devices: seq<DeviceId>, t: FiveTuple,
                                                     timeout: int, d: DeviceId)
    ensures After(s, SendAll(kind, devices, t, timeout)).snortPorts == s.snortPorts
    ensures multiset(PendingAt(After(s, SendAll(kind, devices, t, timeout)), Slot(kind, d)))[t]
         == multiset(PendingAt(s, Slot(kind, d)))[t] + if d in s.snortPorts then 0 else multiset(devices)[d]
  {
    hide Next, PendingAt, TunnelRule, HasPort, After;
    SendAllGrows(s, kind, devices, t, timeout);
    if devices != [] {
      var front, last := devices[..|devices| - 1], devices[|devices| - 1];
      PendingCountsEveryMention(s, kind, front, t, timeout, d);
      SendStep(After(s, SendAll(kind, front, t, timeout)), kind, last, t, timeout, Slot(kind, d));
      assert devices == front + [last];
    }
  }

  lemma SendAllGrows(s: State, kind: Kind, devices: seq<DeviceId>, t: FiveTuple, timeout: int)
    ensures devices == [] ==> After(s, SendAll(kind, devices, t, timeout)) == s
    ensures devices != [] ==>
              var front, last := devices[..|devices| - 1], devices[|devices| - 1];
              After(s, SendAll(kind, devices, t, timeout))
              == Next(After(s, SendAll(kind, front, t, timeout)), Send(kind, last, t, timeout))
  {
    hide Next;
    if devices != [] {
      var front, last := devices[..|devices| - 1], devices[|devices| - 1];
      assert SendAll(kind, devices, t, timeout) == SendAll(kind, front, t, timeout) + [Send(kind, last, t, timeout)];
      AfterAppend(s, SendAll(kind, front, t, timeout), Send(kind, last, t, timeout));
    }
  }

  /** And on every device that has a port, or no Snort yet, the rule itself is installed at once. */
  lemma {:induction false} SendingInstalls(s: State, kind: Kind, devices: seq<DeviceId>, t: FiveTuple,
                                           timeout: int, d: DeviceId)
    requires HasPort(s.snortPorts, d) && d in devices
    ensures var rule := TunnelRuleAt(After(s, SendAll(kind, devices, t, timeout)), d, t);
            rule.Some? && SendsAs(rule.value, kind, if timeout > 0 then Some(timeout) else None)
  {
    TunnelRuleSends(kind, timeout);
    hide Next, PendingAt, TunnelRule, HasPort, After, SendsAs;
    SendAllGrows(s, kind, devices, t, timeout);
    var front, last := devices[..|devices| - 1], devices[|devices| - 1];
    PendingCountsEveryMention(s, kind, front, t, timeout, d);
    SendStep(After(s, SendAll(kind, front, t, timeout)), kind, last, t, timeout, Slot(kind, d));
    if d != last {
      assert devices == front + [last];
      SendingInstalls(s, kind, front, t, timeout, d);
    }
  }

  // ----- Mirror and redirect rules for the same traffic -----

  /** The call may install the tunnel rule of a device for some traffic. */
  predicate Installs(c: Call, d: DeviceId, t: FiveTuple) {
    match c
    case Register(_, at) => at.device == d
    case Send(_, device, tuple, _) => device == d && tuple == t
    case _ => false
  }

  /** The call deletes it: the kind that the call names is not looked at. */
  predicate Deletes(s: State, c: Call, d: DeviceId, t: FiveTuple) {
    c.Unsend? && c.device == d && c.tuple == t && HasPort(s.snortPorts, d)
  }

  lemma RuleStays(s: State, c: Call, d: DeviceId, t: FiveTuple)
    requires !Installs(c, d, t)
    ensures TunnelRuleAt(Next(s, c), d, t) == if Deletes(s, c, d, t) then None else TunnelRuleAt(s, d, t)
  {
    if c.Register? {
      PendingRulesAreOfDevice(Mirror, c.at.device, PendingAt(s, Slot(Mirror, c.at.device)));
      PendingRulesAreOfDevice(Redirect, c.at.device, PendingAt(s, Slot(Redirect, c.at.device)));
    }
  }

  lemma PendingRulesAreOfDevice(kind: Kind, device: DeviceId, tuples: seq<FiveTuple>)
    ensures forall k | k in PendingRules(kind, device, tuples) :: k.device == device
  {
  }

  ghost predicate DeletesAt(s: State, calls: seq<Call>, d: DeviceId, t: FiveTuple, i: nat)
    requires i < |calls|
  {
    Deletes(After(s, calls[..i]), calls[i], d, t)
  }

  /**
   * Over runs: an installed rule, of either kind, stays installed if and only if no call deletes
   * a rule of either kind for the same traffic while the device has a port or no Snort.
   */
  lemma {:induction false} RuleStaysOverRunIff(s: State, calls: seq<Call>, d: DeviceId, t: FiveTuple)
    requires TunnelRuleAt(s, d, t).Some? && forall c | c in calls :: !Installs(c, d, t)
    ensures TunnelRuleAt(After(s, calls), d, t).Some? <==> forall i | 0 <= i < |calls| :: !DeletesAt(s, calls, d, t, i)
    ensures TunnelRuleAt(After(s, calls), d, t).Some? ==> TunnelRuleAt(After(s, calls), d, t) == TunnelRuleAt(s, d, t)
  {
    hide Next, Deletes;
    if calls != [] {
      var n := |calls| - 1;
      var front := calls[..n];
      assert calls[n] in calls && forall x | x in front :: x in calls;
      RuleStaysOverRunIff(s, front, d, t);
      RuleStays(After(s, front), calls[n], d, t);
      forall i | 0 <= i < n ensures DeletesAt(s, front, d, t, i) == DeletesAt(s, calls, d, t, i) {
        assert front[..i] == calls[..i];
      }
      assert (forall i | 0 <= i < |calls| :: !DeletesAt(s, calls, d, t, i)) <==>
               (forall i | 0 <= i < n :: !DeletesAt(s, front, d, t, i)) && !DeletesAt(s, calls, d, t, n);
    }
  }

  /**
   * Over runs: the last word on some traffic counts. Mirrored traffic reaches Snort and goes on,
   * redirected traffic only reaches Snort, for the time asked for, until a later call on it.
   */
  lemma LastWordCounts(s: State, kind: Kind, d: DeviceId, t: FiveTuple, timeout: int, more: seq<Call>)
    requires HasPort(s.snortPorts, d) && forall c | c in more :: !Installs(c, d, t)
    requires forall i | 0 <= i < |more| :: !DeletesAt(Next(s, Send(kind, d, t, timeout)), more, d, t, i)
    ensures var rule := TunnelRuleAt(After(s, [Send(kind, d, t, timeout)] + more), d, t);
            rule.Some? && SendsAs(rule.value, kind, if timeout > 0 then Some(timeout) else None)
  {
    var send := Send(kind, d, t, timeout);
    SendStep(s, kind, d, t, timeout, Slot(kind, d));
    TunnelRuleSends(kind, timeout);
    hide Next, TunnelRule, SendsAs, HasPort, DeletesAt;
    AfterConcat(s, [send], more);
    AfterAppend(s, [], send);
    assert [] + [send] == [send];
    RuleStaysOverRunIff(Next(s, send), more, d, t);
  }

  /** A redirect rule replaces the mirror rule, and deleting the mirror rule deletes the redirect. */
  lemma MirrorDeletionDeletesRedirect(d: DeviceId, t: FiveTuple)
    ensures var both := After(INITIAL, [Send(Mirror, d, t, 60), Send(Redirect, d, t, 60)]);
            var less := After(INITIAL, [Send(Mirror, d, t, 60), Send(Redirect, d, t, 60), Unsend(Mirror, d, t)]);
            && TunnelRuleAt(both, d, t).Some? && SendsAs(TunnelRuleAt(both, d, t).value, Redirect, Some(60))
            && TunnelRuleAt(less, d, t).None? && PendingAt(less, Slot(Redirect, d)) == [t]
  {
    var mirror, redirect, undo := Send(Mirror, d, t, 60), Send(Redirect, d, t, 60), Unsend(Mirror, d, t);
    AfterThree(INITIAL, mirror, redirect, undo);
    AfterAppend(INITIAL, [mirror], redirect);
    AfterAppend(INITIAL, [], mirror);
    assert [] + [mirror] == [mirror] && [mirror] + [redirect] == [mirror, redirect];
    hide After;
  }
}
