/**
 * The OpenFlow channel to one switch: the handshake of sections 6.3.1 and 7.3.1 of the OpenFlow
 * Switch Specification 1.3, and the sub-handshake of the HP switch driver inside it.
 */
module OpenFlowChannel {
  import opened Options

  datatype Phase =
    | WaitHello
    | WaitFeaturesReply
    | WaitPortDescReply
    | WaitConfigReply
    | WaitDescriptionStatReply
    | WaitSwitchDriverSubHandshake
    | Active

  datatype Version = OF_10 | OF_13

  const OF_10_WIRE_VERSION := 1
  const OF_13_WIRE_VERSION := 4

  datatype StatsType = PortDesc | Desc | TableFeatures | OtherStats

  datatype Message =
    | Hello(wireVersion: nat)
    | FeaturesReply(dpid: int, buffers: nat)
    | StatsReply(xid: int, statsType: StatsType, more: bool)
    | GetConfigReply(missSendLen: nat)
    | PortStatus(id: int)
    | Error(xid: int)
    | BarrierReply(xid: int)
    | EchoRequest
    | EchoReply
    | Experimenter(nicira: bool)
    | RoleReply
    | PacketIn(id: int)
    | FlowRemoved(id: int)
    | QueueGetConfigReply
    | GetAsyncReply
    | MeantForSwitches  // any type that only a controller sends

  /** The driver chosen for a switch: HP's with its own transaction ids, or one without sub-handshake. */
  datatype Driver = HP(firstXid: int) | Plain

  /**
   * A message, with the answers of code outside the model: the driver that a description
   * selects, whether the registry accepts the switch, and whether an error was about a role.
   */
  datatype Input = Input(message: Message, driver: Driver, connects: bool, roleError: bool)

  datatype Outcome = Done | StateError | DriverError | CastError | Unsupported

  // ----- The protocol, as an automaton over what was received -----

  datatype Progress = Progress(
    phase: Phase, version: Option<Version>, features: Option<Message>, driver: Option<Driver>)

  /** The message that ends the sub-handshake of the driver. */
  predicate Completes(d: Driver, i: Input) {
    && d.HP?
    && match i.message
       case StatsReply(xid, statsType, more) => xid == d.firstXid + 2 && statsType.TableFeatures? && !more
       case Error(xid) => !i.roleError && (xid == d.firstXid + 1 || xid == d.firstXid + 2)
       case _ => false
  }

  function Next(p: Progress, i: Input): Progress {
    match (p.phase, i.message)
    case (WaitHello, Hello(v)) =>
      if v >= OF_13_WIRE_VERSION then p.(phase := WaitFeaturesReply, version := Some(OF_13))
      else if v >= OF_10_WIRE_VERSION then p.(phase := WaitFeaturesReply, version := Some(OF_10))
      else p
    case (WaitFeaturesReply, FeaturesReply(_, _)) =>
      p.(phase := if p.version == Some(OF_10) then WaitConfigReply else WaitPortDescReply, features := Some(i.message))
    case (WaitPortDescReply, StatsReply(_, PortDesc, more)) =>
      if more then p else p.(phase := WaitConfigReply)
    case (WaitConfigReply, GetConfigReply(_)) => p.(phase := WaitDescriptionStatReply)
    case (WaitDescriptionStatReply, StatsReply(_, Desc, _)) =>
      if i.driver.HP? && p.version == Some(OF_10) then p
      else p.(phase := if i.driver.HP? then WaitSwitchDriverSubHandshake else Active, driver := Some(i.driver))
    case (WaitSwitchDriverSubHandshake, _) =>
      if p.driver.Some? && Completes(p.driver.value, i) then p.(phase := Active) else p
    case _ => p
  }

  function After(h: seq<Input>): Progress {
    if h == [] then Progress(WaitHello, None, None, None) else Next(After(h[..|h| - 1]), h[|h| - 1])
  }

  function Rank(p: Phase): nat {
    match p
    case WaitHello => 0
    case WaitFeaturesReply => 1
    case WaitPortDescReply => 2
    case WaitConfigReply => 3
    case WaitDescriptionStatReply => 4
    case WaitSwitchDriverSubHandshake => 5
    case Active => 6
  }

  /** The messages that close the connection with a state error, phase by phase. */
  predicate Illegal(p: Phase, m: Message) {
    if p.WaitSwitchDriverSubHandshake? then false
    else match m
      case MeantForSwitches => true
      case GetConfigReply(_) => !p.WaitConfigReply?
      case FeaturesReply(_, _) => p.WaitHello? || p.WaitConfigReply? || p.WaitDescriptionStatReply?
      case StatsReply(_, statsType, _) =>
        p.WaitHello? || p.WaitFeaturesReply? || (p.WaitConfigReply? && !statsType.PortDesc?)
      case _ => false
  }

  /** The sub-handshake keeps back echoes, role replies, role errors and Nicira's own messages. */
  predicate ForDriver(i: Input) {
    match i.message
    case EchoRequest => false
    case EchoReply => false
    case RoleReply => false
    case Error(_) => !i.roleError
    case Experimenter(nicira) => !nicira
    case _ => true
  }

  /**
   * How the handling of a message ends. HP's driver cannot build its requests for version 1.0, and
   * cannot cast a reply of another kind under the number of its last request.
   */
  function Answer(p: Progress, i: Input): Outcome {
    var m := i.message;
    if p.phase.WaitSwitchDriverSubHandshake? then
      if p.driver.Some? && p.driver.value.HP? && m.StatsReply? && m.xid == p.driver.value.firstXid + 2
         && !m.statsType.TableFeatures? then CastError
      else Done
    else if Illegal(p.phase, m) then StateError
    else if p.phase.WaitDescriptionStatReply? && IsDescription(m) && i.driver.HP? && p.version == Some(OF_10) then
      Unsupported
    else Done
  }

  predicate Buffers(p: Phase) {
    p.WaitFeaturesReply? || p.WaitPortDescReply? || p.WaitConfigReply? || p.WaitDescriptionStatReply?
  }

  /** The port-status messages put aside during the handshake. */
  function Buffered(h: seq<Input>): seq<Message> {
    if h == [] then []
    else
      var earlier, m := h[..|h| - 1], h[|h| - 1].message;
      if m.PortStatus? && Buffers(After(earlier).phase) then Buffered(earlier) + [m] else Buffered(earlier)
  }

  predicate GoesToSwitch(m: Message) {
    || m.Error? || m.StatsReply? || m.PortStatus? || m.PacketIn? || m.FlowRemoved? || m.BarrierReply?
    || m.FeaturesReply?
  }

  /** The messages received in the final phase that are for the switch object. */
  function Dispatched(h: seq<Input>): seq<Message> {
    if h == [] then []
    else
      var earlier, m := h[..|h| - 1], h[|h| - 1].message;
      if After(earlier).phase.Active? && GoesToSwitch(m) then Dispatched(earlier) + [m] else Dispatched(earlier)
  }

  /** The port descriptions collected, also late ones. */
  function PortDescs(h: seq<Input>): seq<Message> {
    if h == [] then []
    else
      var earlier, m := h[..|h| - 1], h[|h| - 1].message;
      var p := After(earlier).phase;
      if m.StatsReply? && m.statsType.PortDesc? && (p.WaitPortDescReply? || p.WaitConfigReply?) then
        PortDescs(earlier) + [m]
      else PortDescs(earlier)
  }

  /** The registry refused the switch when it was about to become active. */
  function Refused(h: seq<Input>): bool {
    if h == [] then false
    else
      var earlier := h[..|h| - 1];
      Refused(earlier) || (!After(earlier).phase.Active? && After(h).phase.Active? && !h[|h| - 1].connects)
  }

  /** The features that a bound switch has: a reply received in the final phase replaces them. */
  function SwitchFeatures(h: seq<Input>): Option<Message> {
    if h == [] || !After(h[..|h| - 1]).phase.Active? then After(h).features
    else if h[|h| - 1].message.FeaturesReply? then Some(h[|h| - 1].message)
    else SwitchFeatures(h[..|h| - 1])
  }

  /** Its ports: the descriptions collected, or the last one received in the final phase. */
  function SwitchPorts(h: seq<Input>): seq<Message> {
    if h == [] || !After(h[..|h| - 1]).phase.Active? then PortDescs(h)
    else
      var m := h[|h| - 1].message;
      if m.StatsReply? && m.statsType.PortDesc? then [m] else SwitchPorts(h[..|h| - 1])
  }

  datatype RequestKind =
    | HelloRequest
    | FeaturesRequest
    | PortDescRequest
    | SetConfig
    | BarrierRequest
    | GetConfigRequest
    | DescRequest

  datatype Request = Request(kind: RequestKind, xid: int)

  /** What has to be asked of a switch up to a phase: by version, and by whether it has buffers. */
  function Script(p: Progress): seq<RequestKind> {
    if p.phase.WaitHello? then []
    else
      var hello := [HelloRequest, FeaturesRequest];
      if p.phase.WaitFeaturesReply? then hello
      else
        var ports := hello + if p.version == Some(OF_10) then [] else [PortDescRequest];
        if p.phase.WaitPortDescReply? then ports
        else
          var buffers := p.features.Some? && p.features.value.FeaturesReply? && p.features.value.buffers > 0;
          var config := ports + (if buffers then [SetConfig] else []) + [BarrierRequest, GetConfigRequest];
          if p.phase.WaitConfigReply? then config else config + [DescRequest]
  }

  /** The requests carry the kinds of the script and the transaction ids -1, -2, and so on. */
  ghost predicate Follows(sent: seq<Request>, script: seq<RequestKind>) {
    |sent| == |script| && forall i | 0 <= i < |sent| :: sent[i] == Request(script[i], -1 - i)
  }

  // ----- Theorems about runs -----

  lemma {:induction false} NeverBackwards(h: seq<Input>, more: seq<Input>)
    ensures Rank(After(h).phase) <= Rank(After(h + more).phase)
    decreases |more|
  {
    if more == [] {
      assert h + more == h;
    } else {
      var front := more[..|more| - 1];
      NeverBackwards(h, front);
      assert (h + more)[..|h + more| - 1] == h + front;
    }
  }

  /** Which facts are settled in a phase. */
  lemma {:induction false} ProgressIsConsistent(h: seq<Input>)
    ensures var p := After(h);
            && (p.version.Some? <==> !p.phase.WaitHello?)
            && (Rank(p.phase) >= 2 <==> p.features.Some?)
            && (p.features.Some? ==> p.features.value.FeaturesReply?)
            && (p.phase.WaitPortDescReply? ==> p.version == Some(OF_13))
            && (Rank(p.phase) >= 5 <==> p.driver.Some?)
            && (p.phase.WaitSwitchDriverSubHandshake? ==> p.driver.value.HP? && p.version == Some(OF_13))
  {
    if h != [] {
      ProgressIsConsistent(h[..|h| - 1]);
      var v := After(h[..|h| - 1]).version;
      assert v.Some? ==> v.value.OF_10? || v.value.OF_13?;
    }
  }

  /** The step that led into the present phase. */
  lemma {:induction false} Entered(h: seq<Input>) returns (k: nat)
    requires !After(h).phase.WaitHello?
    ensures k < |h| && After(h[..k]).phase != After(h).phase
    ensures Next(After(h[..k]), h[k]).phase == After(h).phase
    ensures After(h[..k]).version == After(h).version || After(h[..k]).phase.WaitHello?
  {
    var n := |h| - 1;
    if After(h[..n]).phase == After(h).phase {
      k := Entered(h[..n]);
      assert h[..n][..k] == h[..k];
    } else {
      k := n;
    }
  }

  predicate IsHello(m: Message) {
    m.Hello? && m.wireVersion >= OF_10_WIRE_VERSION
  }

  predicate IsFinalPortDesc(m: Message) {
    m.StatsReply? && m.statsType.PortDesc? && !m.more
  }

  predicate IsDescription(m: Message) {
    m.StatsReply? && m.statsType.Desc?
  }

  /** A run in the configuration phase or later has received the messages before it, in order. */
  lemma ConfigMilestones(h: seq<Input>) returns (hello: nat, features: nat, ports: nat)
    requires After(h).phase.WaitConfigReply?
    ensures hello < features < |h|
    ensures IsHello(h[hello].message) && h[features].message.FeaturesReply?
    ensures After(h).version == Some(OF_13) ==> features < ports < |h| && IsFinalPortDesc(h[ports].message)
  {
    hide After;
    ProgressIsConsistent(h);
    var k := Entered(h);
    ProgressIsConsistent(h[..k]);
    if After(h[..k]).phase.WaitPortDescReply? {
      ports := k;
      features := Entered(h[..k]);
      assert h[..k][..features] == h[..features];
    } else {
      features, ports := k, k;
    }
    ProgressIsConsistent(h[..features]);
    hello := Entered(h[..features]);
    assert h[..features][..hello] == h[..hello];
    ProgressIsConsistent(h[..hello]);
  }

  /** Every run that reaches ACTIVE received the five messages of the handshake, in this order. */
  lemma ActiveMilestones(h: seq<Input>)
    returns (hello: nat, features: nat, ports: nat, config: nat, description: nat)
    requires After(h).phase.Active?
    ensures hello < features < config < description < |h|
    ensures IsHello(h[hello].message) && h[features].message.FeaturesReply?
    ensures After(h).version == Some(OF_13) ==> features < ports < config && IsFinalPortDesc(h[ports].message)
    ensures h[config].message.GetConfigReply? && IsDescription(h[description].message)
  {
    hide After;
    var k := Entered(h);
    ProgressIsConsistent(h[..k]);
    if After(h[..k]).phase.WaitSwitchDriverSubHandshake? {
      description := Entered(h[..k]);
      assert h[..k][..description] == h[..description];
    } else {
      description := k;
    }
    ProgressIsConsistent(h[..description]);
    config := Entered(h[..description]);
    assert h[..description][..config] == h[..config];
    ProgressIsConsistent(h[..config]);
    hello, features, ports := ConfigMilestones(h[..config]);
  }

  function PortStatuses(ms: seq<Message>): seq<Message> {
    if ms == [] then []
    else
      var front := PortStatuses(ms[..|ms| - 1]);
      if ms[|ms| - 1].PortStatus? then front + [ms[|ms| - 1]] else front
  }

  /** All port-status messages received once the Hello was answered. */
  function AllPortStatuses(h: seq<Input>): seq<Message> {
    if h == [] then []
    else
      var earlier, m := h[..|h| - 1], h[|h| - 1].message;
      if m.PortStatus? && !After(earlier).phase.WaitHello? then AllPortStatuses(earlier) + [m]
      else AllPortStatuses(earlier)
  }

  /** Those of them that arrived during the sub-handshake of the driver. */
  function DuringSubHandshake(h: seq<Input>): seq<Message> {
    if h == [] then []
    else
      var earlier, m := h[..|h| - 1], h[|h| - 1].message;
      if m.PortStatus? && After(earlier).phase.WaitSwitchDriverSubHandshake? then DuringSubHandshake(earlier) + [m]
      else DuringSubHandshake(earlier)
  }

  lemma PortStatusesAppend(ms: seq<Message>, m: Message)
    ensures PortStatuses(ms + [m]) == if m.PortStatus? then PortStatuses(ms) + [m] else PortStatuses(ms)
  {
    assert (ms + [m])[..|ms|] == ms;
  }

  lemma {:induction false} NothingDispatchedBefore(h: seq<Input>)
    ensures !After(h).phase.Active? ==> Dispatched(h) == []
    ensures Rank(After(h).phase) < 5 ==> DuringSubHandshake(h) == []
  {
    if h != [] {
      NothingDispatchedBefore(h[..|h| - 1]);
    }
  }

  /**
   * Conservation, in order: the port-status messages received are those put aside for the switch,
   * then those that the sub-handshake swallows, then those dispatched in the final phase.
   */
  lemma {:induction false} PortStatusConservation(h: seq<Input>)
    ensures AllPortStatuses(h) == Buffered(h) + DuringSubHandshake(h) + PortStatuses(Dispatched(h))
  {
    if h != [] {
      var earlier, m := h[..|h| - 1], h[|h| - 1].message;
      PortStatusConservation(earlier);
      NothingDispatchedBefore(earlier);
      hide Next, After, AllPortStatuses, Buffered, DuringSubHandshake, Dispatched, PortStatuses;
      ListsGrow(h);
      PortStatusesAppend(Dispatched(earlier), m);
      PhaseIsOneOf(After(earlier).phase);
      assert PortStatuses([]) == [] by {
        NoPortStatuses();
      }
    }
  }

  lemma NoPortStatuses()
    ensures PortStatuses([]) == []
  {
  }

  lemma ListsGrow(h: seq<Input>)
    requires h != []
    ensures var earlier, m := h[..|h| - 1], h[|h| - 1].message;
            var p, status := After(earlier).phase, if m.PortStatus? then [m] else [];
            && AllPortStatuses(h) == AllPortStatuses(earlier) + (if p.WaitHello? then [] else status)
            && Buffered(h) == Buffered(earlier) + (if Buffers(p) then status else [])
            && DuringSubHandshake(h)
               == DuringSubHandshake(earlier) + (if p.WaitSwitchDriverSubHandshake? then status else [])
            && Dispatched(h) == Dispatched(earlier) + (if p.Active? && GoesToSwitch(m) then [m] else [])
  {
    hide Next, After;
  }

  lemma PhaseIsOneOf(p: Phase)
    ensures p.WaitHello? || Buffers(p) || p.WaitSwitchDriverSubHandshake? || p.Active?
    ensures Buffers(p) ==> Rank(p) < 5
  {
  }

  lemma {:induction false} BufferedArePortStatuses(h: seq<Input>)
    ensures PortStatuses(Buffered(h)) == Buffered(h)
  {
    if h != [] {
      BufferedArePortStatuses(h[..|h| - 1]);
      PortStatusesAppend(Buffered(h[..|h| - 1]), h[|h| - 1].message);
    }
  }

  lemma {:induction false} PortStatusesConcat(ms: seq<Message>, more: seq<Message>)
    ensures PortStatuses(ms + more) == PortStatuses(ms) + PortStatuses(more)
    decreases |more|
  {
    if more == [] {
      assert ms + more == ms;
    } else {
      var n := |more| - 1;
      PortStatusesConcat(ms, more[..n]);
      assert (ms + more)[..|ms| + n] == ms + more[..n];
    }
  }

  /** Every port-status message reaches the switch exactly if none came during the sub-handshake. */
  lemma AllPortStatusesArriveIff(h: seq<Input>)
    ensures AllPortStatuses(h) == PortStatuses(Buffered(h) + Dispatched(h)) <==> DuringSubHandshake(h) == []
  {
    PortStatusConservation(h);
    PortStatusesConcat(Buffered(h), Dispatched(h));
    BufferedArePortStatuses(h);
    if DuringSubHandshake(h) != [] {
      assert |AllPortStatuses(h)| > |Buffered(h)| + |PortStatuses(Dispatched(h))|;
    }
  }

  lemma {:induction false} DuringSubHandshakeGrows(h: seq<Input>, more: seq<Input>)
    ensures DuringSubHandshake(h) <= DuringSubHandshake(h + more)
    decreases |more|
  {
    if more == [] {
      assert h + more == h;
    } else {
      DuringSubHandshakeGrows(h, more[..|more| - 1]);
      assert (h + more)[..|h + more| - 1] == h + more[..|more| - 1];
    }
  }

  /** A port-status message of the sub-handshake is lost for good, whatever is received later. */
  lemma SubHandshakeLosesPortStatus(h: seq<Input>, i: Input, more: seq<Input>)
    requires After(h).phase.WaitSwitchDriverSubHandshake? && i.message.PortStatus?
    ensures var run := h + [i] + more; AllPortStatuses(run) != PortStatuses(Buffered(run) + Dispatched(run))
  {
    assert (h + [i])[..|h|] == h;
    DuringSubHandshakeGrows(h + [i], more);
    AllPortStatusesArriveIff(h + [i] + more);
  }

  /** The handshake of a switch of HP up to its driver's sub-handshake. */
  function HpRun(): seq<Input> {
    var from := (m: Message) => Input(m, HP(7), true, false);
    [from(Hello(4)), from(FeaturesReply(1, 0)), from(StatsReply(3, PortDesc, false)), from(GetConfigReply(0)),
     from(StatsReply(5, Desc, false))]
  }

  lemma HpRunWaitsForDriver()
    ensures After(HpRun())
         == Progress(WaitSwitchDriverSubHandshake, Some(OF_13), Some(FeaturesReply(1, 0)), Some(HP(7)))
  {
    var r := HpRun();
    assert r[..4][..3] == r[..3] && r[..3][..2] == r[..2] && r[..2][..1] == r[..1] && r[..1][..0] == [];
    assert After(r[..1]) == Progress(WaitFeaturesReply, Some(OF_13), None, None);
    assert After(r[..2]) == Progress(WaitPortDescReply, Some(OF_13), Some(r[1].message), None);
    assert After(r[..3]) == After(r[..2]).(phase := WaitConfigReply);
    assert After(r[..4]) == After(r[..2]).(phase := WaitDescriptionStatReply);
  }

  /** Such a run exists: the port status after it, and before the driver is done, is lost. */
  lemma PortStatusLost(id: int)
    ensures var done := Input(StatsReply(9, TableFeatures, false), HP(7), true, false);
            var run := HpRun() + [Input(PortStatus(id), HP(7), true, false)] + [done];
            && After(run).phase.Active?
            && AllPortStatuses(run) == [PortStatus(id)] && Buffered(run) + Dispatched(run) == []
  {
    var p := Input(PortStatus(id), HP(7), true, false);
    var done := Input(StatsReply(9, TableFeatures, false), HP(7), true, false);
    var r := HpRun();
    HpRunWaitsForDriver();
    assert (r + [p] + [done])[..6] == r + [p] && (r + [p])[..5] == r;
    NoPortStatusNoList(r);
  }

  lemma {:induction false} NoPortStatusNoList(h: seq<Input>)
    requires forall i | 0 <= i < |h| :: !h[i].message.PortStatus?
    requires !After(h).phase.Active?
    ensures AllPortStatuses(h) == Buffered(h) == Dispatched(h) == []
  {
    if h != [] {
      NoPortStatusNoList(h[..|h| - 1]);
    }
  }
}
