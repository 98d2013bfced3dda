/** Which messages reach the switch, and what was asked of it, by the positions of what was received. */
module OpenFlowDelivery {
  import opened Options
  import opened OpenFlowChannel
  import opened OpenFlowHandler

  // ----- What reaches the switch -----

  /** Port status is for the switch from the first phase after the Hello on, but for the sub-handshake. */
  ghost predicate ForSwitch(h: seq<Input>, i: nat)
    requires i < |h|
  {
    var p, m := After(h[..i]).phase, h[i].message;
    || (m.PortStatus? && (p == WaitFeaturesReply || p == WaitPortDescReply || p == WaitConfigReply
                          || p == WaitDescriptionStatReply))
    || (p == Active && (m.PortStatus? || m.PacketIn? || m.FlowRemoved? || m.BarrierReply? || m.Error? || m.StatsReply?
                        || m.FeaturesReply?))
  }

  /** These are, in order, the messages at the positions that are for the switch. */
  ghost predicate DeliveredAt(h: seq<Input>, handled: seq<Message>, at: seq<nat>) {
    && |at| == |handled|
    && (forall k, l | 0 <= k < l < |at| :: at[k] < at[l])
    && (forall i: nat :: i in at <==> i < |h| && ForSwitch(h, i))
    && (forall k | 0 <= k < |at| :: at[k] < |h| && handled[k] == h[at[k]].message)
  }

  lemma ForSwitchIff(h: seq<Input>)
    requires h != []
    ensures var n, earlier := |h| - 1, h[..|h| - 1];
            Buffered(h) + Dispatched(h)
            == Buffered(earlier) + Dispatched(earlier) + if ForSwitch(h, n) then [h[n].message] else []
  {
    NothingDispatchedBefore(h[..|h| - 1]);
    hide After;
  }

  lemma ForSwitchStays(h: seq<Input>, i: nat)
    requires i + 1 < |h|
    ensures ForSwitch(h[..|h| - 1], i) <==> ForSwitch(h, i)
  {
    assert h[..|h| - 1][..i] == h[..i];
  }

  lemma DeliveredGrows(h: seq<Input>, handled: seq<Message>, at: seq<nat>)
    requires h != [] && DeliveredAt(h[..|h| - 1], handled, at)
    ensures var n := |h| - 1;
            if ForSwitch(h, n) then DeliveredAt(h, handled + [h[n].message], at + [n]) else DeliveredAt(h, handled, at)
  {
    hide ForSwitch;
    var n := |h| - 1;
    var at' := at + [n];
    forall i: nat | i < n ensures ForSwitch(h[..n], i) <==> ForSwitch(h, i) {
      ForSwitchStays(h, i);
    }
    assert forall k | 0 <= k < |at| :: at[k] in at;
    assert forall i: nat :: i in at' <==> i in at || i == n;
  }

  lemma {:induction false} DeliveredByPosition(h: seq<Input>) returns (at: seq<nat>)
    ensures DeliveredAt(h, Buffered(h) + Dispatched(h), at)
  {
    hide ForSwitch, After;
    at := [];
    if h != [] {
      var n := |h| - 1;
      at := DeliveredByPosition(h[..n]);
      DeliveredGrows(h, Buffered(h[..n]) + Dispatched(h[..n]), at);
      ForSwitchIff(h);
      if ForSwitch(h, n) {
        at := at + [n];
      }
    }
  }

  /** After any run into the final phase the switch has been given these messages and no others. */
  lemma HandledByPosition(c: OFChannelHandler) returns (at: seq<nat>)
    requires c.Valid() && c.state == Some(Active) && c.sw != null
    ensures DeliveredAt(c.received, c.sw.handled, at)
  {
    hide ForSwitch, DeliveredAt;
    at := DeliveredByPosition(c.received);
  }

  // ----- Conservation, kind by kind -----

  type Kind = Message -> bool

  ghost function Only(ms: seq<Message>, kind: Kind): seq<Message> {
    if ms == [] then []
    else Only(ms[..|ms| - 1], kind) + if kind(ms[|ms| - 1]) then [ms[|ms| - 1]] else []
  }

  /** The messages of a kind that are received in the final phase. */
  ghost function InActive(h: seq<Input>, kind: Kind): seq<Message> {
    if h == [] then []
    else
      var n := |h| - 1;
      InActive(h[..n], kind) + if After(h[..n]).phase == Active && kind(h[n].message) then [h[n].message] else []
  }

  lemma OnlyAppends(ms: seq<Message>, m: Message, kind: Kind)
    ensures Only(ms + [m], kind) == Only(ms, kind) + if kind(m) then [m] else []
  {
    assert (ms + [m])[..|ms|] == ms;
  }

  /** In order, the switch is given exactly the messages of such a kind that are received in the final phase. */
  lemma {:induction false} KindIsDispatched(h: seq<Input>, kind: Kind)
    requires forall m: Message | kind(m) ::
               || m.PacketIn? || m.FlowRemoved? || m.BarrierReply? || m.Error? || m.StatsReply? || m.FeaturesReply?
               || m.PortStatus?
    ensures Only(Dispatched(h), kind) == InActive(h, kind)
  {
    hide After;
    if h != [] {
      var n := |h| - 1;
      KindIsDispatched(h[..n], kind);
      OnlyAppends(Dispatched(h[..n]), h[n].message, kind);
    }
  }

  lemma {:induction false} OtherKindsStayOut(h: seq<Input>, kind: Kind)
    requires forall m: Message | kind(m) ::
               && !m.PacketIn? && !m.FlowRemoved? && !m.BarrierReply? && !m.Error? && !m.StatsReply?
               && !m.FeaturesReply? && !m.PortStatus?
    ensures Only(Dispatched(h), kind) == []
  {
    hide After;
    if h != [] {
      var n := |h| - 1;
      OtherKindsStayOut(h[..n], kind);
      OnlyAppends(Dispatched(h[..n]), h[n].message, kind);
    }
  }

  lemma {:induction false} OnlyPortStatusIsBuffered(h: seq<Input>, kind: Kind)
    requires forall m: Message | kind(m) :: !m.PortStatus?
    ensures Only(Buffered(h), kind) == []
  {
    hide After, Buffers;
    if h != [] {
      OnlyPortStatusIsBuffered(h[..|h| - 1], kind);
      OnlyAppends(Buffered(h[..|h| - 1]), h[|h| - 1].message, kind);
    }
  }

  lemma {:induction false} OnlyConcat(ms: seq<Message>, more: seq<Message>, kind: Kind)
    ensures Only(ms + more, kind) == Only(ms, kind) + Only(more, kind)
    decreases |more|
  {
    if more == [] {
      assert ms + more == ms;
    } else {
      OnlyConcat(ms, more[..|more| - 1], kind);
      assert (ms + more)[..|ms + more| - 1] == ms + more[..|more| - 1];
    }
  }

  /**
   * What the switch has been given after any run into the final phase: of packet-ins, removed
   * flows, barrier replies, errors, statistics and features replies just those received in that
   * phase, and nothing of any kind but these and port status.
   */
  lemma HandledOfKind(c: OFChannelHandler, kind: Kind)
    requires c.Valid() && c.state == Some(Active) && c.sw != null
    ensures (forall m: Message | kind(m) ::
               || m.PacketIn? || m.FlowRemoved? || m.BarrierReply? || m.Error? || m.StatsReply? || m.FeaturesReply?) ==>
              Only(c.sw.handled, kind) == InActive(c.received, kind)
    ensures (forall m: Message | kind(m) ::
               && !m.PacketIn? && !m.FlowRemoved? && !m.BarrierReply? && !m.Error? && !m.StatsReply?
               && !m.FeaturesReply? && !m.PortStatus?) ==>
              Only(c.sw.handled, kind) == []
    ensures (forall m: Message :: kind(m) <==> m.PortStatus?) ==>
              Only(c.sw.handled, kind) == Only(Buffered(c.received), kind) + InActive(c.received, kind)
  {
    hide After, Only, InActive;
    var h := c.received;
    OnlyConcat(Buffered(h), Dispatched(h), kind);
    if forall m: Message | kind(m) :: !m.PortStatus? {
      OnlyPortStatusIsBuffered(h, kind);
    }
    if forall m: Message | kind(m) ::
        || m.PacketIn? || m.FlowRemoved? || m.BarrierReply? || m.Error? || m.StatsReply? || m.FeaturesReply?
        || m.PortStatus? {
      KindIsDispatched(h, kind);
    }
    if forall m: Message | kind(m) ::
        && !m.PacketIn? && !m.FlowRemoved? && !m.BarrierReply? && !m.Error? && !m.StatsReply?
        && !m.FeaturesReply? && !m.PortStatus? {
      OtherKindsStayOut(h, kind);
    }
  }

  // ----- Which message each phase waits for -----

  /** The message that a phase waits for, with the numbers of the specification and of HP's driver. */
  ghost predicate Awaited(p: Progress, i: Input) {
    var m := i.message;
    match p.phase
    case WaitHello => m.Hello? && m.wireVersion >= 1
    case WaitFeaturesReply => m.FeaturesReply?
    case WaitPortDescReply => m.StatsReply? && m.statsType == PortDesc && !m.more
    case WaitConfigReply => m.GetConfigReply?
    case WaitDescriptionStatReply => m.StatsReply? && m.statsType == Desc && !(i.driver.HP? && p.version == Some(OF_10))
    case WaitSwitchDriverSubHandshake =>
      && p.driver.Some? && p.driver.value.HP?
      && (|| (m.StatsReply? && m.statsType == TableFeatures && !m.more && m.xid == p.driver.value.firstXid + 2)
          || (m.Error? && !i.roleError
              && (m.xid == p.driver.value.firstXid + 1 || m.xid == p.driver.value.firstXid + 2)))
    case Active => false
  }

  /** Where the awaited message leads: version 1.0 skips the ports, and only HP's driver has a sub-handshake. */
  ghost predicate LeadsTo(p: Progress, i: Input, next: Phase) {
    match p.phase
    case WaitHello => next == WaitFeaturesReply
    case WaitFeaturesReply => next == if p.version == Some(OF_13) then WaitPortDescReply else WaitConfigReply
    case WaitPortDescReply => next == WaitConfigReply
    case WaitConfigReply => next == WaitDescriptionStatReply
    case WaitDescriptionStatReply => next == if i.driver.Plain? then Active else WaitSwitchDriverSubHandshake
    case WaitSwitchDriverSubHandshake => next == Active
    case Active => false
  }

  /** A phase ends with exactly the message it waits for, and the handling of that one raises nothing. */
  lemma AdvancesIff(h: seq<Input>, i: Input)
    ensures After(h + [i]).phase != After(h).phase <==> Awaited(After(h), i)
    ensures Awaited(After(h), i) ==> LeadsTo(After(h), i, After(h + [i]).phase) && Answer(After(h), i).Done?
    ensures Awaited(After(h), i) && After(h).phase == WaitHello ==>
              After(h + [i]).version == Some(if i.message.wireVersion >= 4 then OF_13 else OF_10)
    ensures Awaited(After(h), i) && After(h).phase == WaitFeaturesReply ==> After(h + [i]).features == Some(i.message)
    ensures Awaited(After(h), i) && After(h).phase == WaitDescriptionStatReply ==>
              After(h + [i]).driver == Some(i.driver)
  {
    ProgressIsConsistent(h);
    assert (h + [i])[..|h|] == h;
    hide After;
    var v := After(h).version;
    assert v.Some? ==> v.value.OF_10? || v.value.OF_13?;
  }

  /** Whatever does not end a phase changes nothing that is known, and an exception loses nothing else. */
  lemma OthersChangeNothing(h: seq<Input>, i: Input)
    ensures !Awaited(After(h), i) ==> After(h + [i]) == After(h)
    ensures !Answer(After(h), i).Done? ==>
              && After(h + [i]) == After(h) && Buffered(h + [i]) == Buffered(h) && PortDescs(h + [i]) == PortDescs(h)
    ensures Answer(After(h), i).StateError? ==> Dispatched(h + [i]) == Dispatched(h)
    ensures i.message.MeantForSwitches? && After(h).phase != WaitSwitchDriverSubHandshake ==>
              Answer(After(h), i) == StateError
  {
    ReceiveAppends(h, i);
    ProgressIsConsistent(h);
    hide After, Buffered, Dispatched, PortDescs;
  }

  /** Which messages raise, kind by kind; inside the sub-handshake only a wrong reply to the last request does. */
  lemma RaisesIff(h: seq<Input>, i: Input)
    ensures var p, m := After(h).phase, i.message;
            Answer(After(h), i).StateError? <==>
              && p != WaitSwitchDriverSubHandshake
              && (|| m.MeantForSwitches?
                  || (m.GetConfigReply? && p != WaitConfigReply)
                  || (m.FeaturesReply? && p in {WaitHello, WaitConfigReply, WaitDescriptionStatReply})
                  || (m.StatsReply? && p in {WaitHello, WaitFeaturesReply})
                  || (m.StatsReply? && m.statsType != PortDesc && p == WaitConfigReply))
    ensures Answer(After(h), i).CastError? <==>
              && After(h).phase == WaitSwitchDriverSubHandshake && After(h).driver.Some? && After(h).driver.value.HP?
              && i.message.StatsReply? && i.message.statsType != TableFeatures
              && i.message.xid == After(h).driver.value.firstXid + 2
    ensures Answer(After(h), i).Unsupported? <==>
              && After(h).phase == WaitDescriptionStatReply && After(h).version == Some(OF_10) && i.driver.HP?
              && i.message.StatsReply? && i.message.statsType == Desc
    ensures !Answer(After(h), i).DriverError?
  {
    ProgressIsConsistent(h);
    hide After;
  }

  // ----- What was asked -----

  /** What has been asked of the switch when its answer is awaited, under the ids -1, -2, and so on. */
  lemma AskedBefore(c: OFChannelHandler)
    requires c.Valid() && c.state.Some?
    ensures forall i | 0 <= i < |c.sent| :: c.sent[i].xid == -(i + 1)
    ensures c.state == Some(WaitHello) ==> c.sent == []
    ensures c.state == Some(WaitFeaturesReply) ==> c.sent == [Request(HelloRequest, -1), Request(FeaturesRequest, -2)]
    ensures c.state == Some(WaitPortDescReply) ==> |c.sent| == 3 && c.sent[2] == Request(PortDescRequest, -3)
    ensures c.state == Some(WaitConfigReply) ==>
              && |c.sent| >= 4 && c.sent[|c.sent| - 2].kind == BarrierRequest
              && c.sent[|c.sent| - 1].kind == GetConfigRequest
    ensures var p := After(c.received);
            Rank(p.phase) >= 4 ==>
              && p.features.Some? && p.features.value.FeaturesReply?
              && |c.sent| >= 5 && c.sent[|c.sent| - 1].kind == DescRequest
              && ((exists r :: r in c.sent && r.kind == SetConfig) <==> p.features.value.buffers > 0)
              && ((exists r :: r in c.sent && r.kind == PortDescRequest) <==> p.version == Some(OF_13))
  {
    var p := After(c.received);
    ProgressIsConsistent(c.received);
    hide After;
    assert p.version.Some? ==> p.version.value.OF_10? || p.version.value.OF_13?;
    if Rank(p.phase) >= 4 {
      KindsAsked(c.sent, p);
    }
  }

  lemma KindsAsked(sent: seq<Request>, p: Progress)
    requires Follows(sent, Script(p)) && Rank(p.phase) >= 4
    requires p.features.Some? && p.features.value.FeaturesReply?
    requires p.version == Some(OF_10) || p.version == Some(OF_13)
    ensures (exists r :: r in sent && r.kind == SetConfig) <==> p.features.value.buffers > 0
    ensures (exists r :: r in sent && r.kind == PortDescRequest) <==> p.version == Some(OF_13)
  {
    var script := Script(p);
    KindIn(sent, script, SetConfig);
    KindIn(sent, script, PortDescRequest);
    assert p.version == Some(OF_13) ==> script[2] == PortDescRequest;
    var at := if p.version == Some(OF_13) then 3 else 2;
    assert p.features.value.buffers > 0 ==> script[at] == SetConfig;
  }

  lemma KindIn(sent: seq<Request>, script: seq<RequestKind>, kind: RequestKind)
    requires Follows(sent, script)
    ensures (exists r :: r in sent && r.kind == kind) <==> kind in script
  {
    if kind in script {
      var i :| 0 <= i < |script| && script[i] == kind;
      assert sent[i] in sent && sent[i].kind == kind;
    }
  }

  // ----- What the switch knows -----

  /** A features reply that was received while it was awaited, or in the final phase. */
  ghost predicate IsFeatures(h: seq<Input>, j: nat)
    requires j < |h|
  {
    var p := After(h[..j]).phase;
    h[j].message.FeaturesReply? && (p == WaitFeaturesReply || p == Active)
  }

  ghost predicate LatestFeatures(h: seq<Input>, j: nat, n: nat)
    requires j < n <= |h|
  {
    IsFeatures(h, j) && forall k | j < k < n :: !IsFeatures(h, k)
  }

  lemma FeaturesStep(h: seq<Input>, n: nat)
    requires n < |h|
    ensures SwitchFeatures(h[..n + 1]) == if IsFeatures(h, n) then Some(h[n].message) else SwitchFeatures(h[..n])
  {
    assert h[..n + 1][..n] == h[..n];
    SwitchIsAsCollected(h[..n]);
    ProgressIsConsistent(h[..n]);
  }

  /** The features of the switch are those of the latest such reply. */
  lemma {:induction false} FeaturesByPosition(h: seq<Input>, n: nat) returns (j: nat)
    requires n <= |h|
    ensures SwitchFeatures(h[..n]).None? ==> forall k | 0 <= k < n :: !IsFeatures(h, k)
    ensures SwitchFeatures(h[..n]).Some? ==>
              j < n && LatestFeatures(h, j, n) && SwitchFeatures(h[..n]).value == h[j].message
  {
    j := 0;
    if n == 0 {
      assert SwitchFeatures([]) == None;
    } else {
      hide After, SwitchFeatures, IsFeatures;
      j := FeaturesByPosition(h, n - 1);
      FeaturesStep(h, n - 1);
      if IsFeatures(h, n - 1) {
        j := n - 1;
      }
    }
  }

  /** The message made the switch active, and the registry did not accept it. */
  ghost predicate RefusedAt(h: seq<Input>, j: nat)
    requires j < |h|
  {
    !h[j].connects && After(h[..j]).phase != Active && After(h[..j + 1]).phase == Active
  }

  lemma {:induction false} RefusedIff(h: seq<Input>, n: nat)
    requires n <= |h|
    ensures Refused(h[..n]) <==> exists j: nat :: j < n && RefusedAt(h, j)
  {
    if n > 0 {
      RefusedIff(h, n - 1);
      assert h[..n][..n - 1] == h[..n - 1];
      hide After;
      assert Refused(h[..n]) <==> Refused(h[..n - 1]) || RefusedAt(h, n - 1);
    }
  }

  /** Port descriptions add up until the configuration is known; in the final phase the last one stands alone. */
  lemma PortsGrow(h: seq<Input>, i: Input)
    ensures PortDescs([]) == [] && SwitchPorts([]) == []
    ensures var p, m := After(h).phase, i.message;
            var described := m.StatsReply? && m.statsType == PortDesc;
            && PortDescs(h + [i]) == PortDescs(h) + (if described && 2 <= Rank(p) <= 3 then [m] else [])
            && (p != Active ==> SwitchPorts(h + [i]) == PortDescs(h + [i]))
            && (p == Active ==> SwitchPorts(h + [i]) == if described then [m] else SwitchPorts(h))
    ensures 2 <= Rank(After(h).phase) <= 3 <==> After(h).phase == WaitPortDescReply || After(h).phase == WaitConfigReply
  {
    ReceiveAppends(h, i);
    hide After;
  }
}
