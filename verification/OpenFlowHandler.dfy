/** The channel handler and the switch object, changed message by message, against the automaton. */
module OpenFlowHandler {
  import opened Options
  import opened OpenFlowChannel

  /** The switch object with its driver. HP's driver asks for the table features three times. */
  class OpenFlowSwitch {
    const driver: Driver

    var startDriverHandshakeCalled: bool
    var handshakeComplete: bool
    var emptyXid: int
    var reqXid: int
    var checkXid: int

    var version: Option<Version>
    var features: Option<Message>
    var portDescs: seq<Message>
    var handled: seq<Message>  // what handleMessage has been given

    constructor (driver: Driver)
      ensures this.driver == driver && !startDriverHandshakeCalled && !handshakeComplete && handled == []
    {
      this.driver := driver;
      startDriverHandshakeCalled, handshakeComplete := false, false;
      emptyXid, reqXid, checkXid := 0, 0, 0;
      version, features, portDescs, handled := None, None, [], [];
    }

    method StartDriverHandshake() returns (o: Outcome)
      modifies this`startDriverHandshakeCalled, this`handshakeComplete, this`emptyXid, this`reqXid, this`checkXid
      ensures o == if old(startDriverHandshakeCalled) then DriverError
                   else if driver.HP? && version == Some(OF_10) then Unsupported else Done
      ensures startDriverHandshakeCalled
      ensures o.Done? ==> XidsSet()
      ensures handshakeComplete == ((o.Done? && driver.Plain?) || old(handshakeComplete))
    {
      if startDriverHandshakeCalled {
        return DriverError;
      }
      startDriverHandshakeCalled := true;
      match driver {
        case Plain => handshakeComplete := true;
        case HP(firstXid) =>
          emptyXid := firstXid;
          if version == Some(OF_10) {
            return Unsupported;
          }
          reqXid, checkXid := firstXid + 1, firstXid + 2;
      }
      return Done;
    }

    ghost predicate XidsSet()
      reads this`emptyXid, this`reqXid, this`checkXid
    {
      driver.HP? ==> emptyXid == driver.firstXid && reqXid == driver.firstXid + 1 && checkXid == driver.firstXid + 2
    }

    method IsDriverHandshakeComplete() returns (o: Outcome, complete: bool)
      ensures o == if startDriverHandshakeCalled then Done else DriverError
      ensures complete == handshakeComplete
    {
      return if startDriverHandshakeCalled then Done else DriverError, handshakeComplete;
    }

    /** A reply under the checking request that is of another kind fails to be cast. */
    method ProcessDriverHandshakeMessage(m: Message) returns (o: Outcome)
      requires driver.HP?
      modifies this`handshakeComplete
      ensures !startDriverHandshakeCalled || old(handshakeComplete) ==>
                o.DriverError? && handshakeComplete == old(handshakeComplete)
      ensures startDriverHandshakeCalled && !old(handshakeComplete) && XidsSet() ==>
                && o == (if m.StatsReply? && m.xid == checkXid && !m.statsType.TableFeatures? then CastError else Done)
                && handshakeComplete == Completes(driver, Input(m, driver, true, false))
    {
      if !startDriverHandshakeCalled || handshakeComplete {
        return DriverError;
      }
      match m
      case StatsReply(xid, statsType, more) =>
        if xid == emptyXid || xid == reqXid {
          return Done;
        } else if xid == checkXid {
          if !statsType.TableFeatures? {
            return CastError;
          }
          if !more {
            handshakeComplete := true;
          }
        }
        return Done;
      case Error(xid) =>
        if xid == reqXid || xid == checkXid {
          handshakeComplete := true;
        }
        return Done;
      case _ => return Done;
    }
  }

  /** Every list and automaton state after one more message. */
  lemma ReceiveAppends(h: seq<Input>, i: Input)
    ensures After(h + [i]) == Next(After(h), i)
    ensures Buffered(h + [i])
         == if i.message.PortStatus? && Buffers(After(h).phase) then Buffered(h) + [i.message] else Buffered(h)
    ensures Dispatched(h + [i])
         == if After(h).phase.Active? && GoesToSwitch(i.message) then Dispatched(h) + [i.message] else Dispatched(h)
    ensures PortDescs(h + [i]) == if CollectsPortDesc(After(h).phase, i.message) then PortDescs(h) + [i.message]
                                  else PortDescs(h)
    ensures Refused(h + [i])
         == (Refused(h) || (!After(h).phase.Active? && Next(After(h), i).phase.Active? && !i.connects))
    ensures SwitchFeatures(h + [i]) == if !After(h).phase.Active? then Next(After(h), i).features
                                       else if i.message.FeaturesReply? then Some(i.message) else SwitchFeatures(h)
    ensures SwitchPorts(h + [i]) == if !After(h).phase.Active? then PortDescs(h + [i])
                                    else if i.message.StatsReply? && i.message.statsType.PortDesc? then [i.message]
                                    else SwitchPorts(h)
  {
    hide Next;
    assert (h + [i])[..|h|] == h;
  }

  /** Before the final phase the switch has what the handshake collected. */
  lemma SwitchIsAsCollected(h: seq<Input>)
    ensures !After(h).phase.Active? ==> SwitchFeatures(h) == After(h).features && SwitchPorts(h) == PortDescs(h)
  {
    hide PortDescs;
  }

  predicate CollectsPortDesc(p: Phase, m: Message) {
    m.StatsReply? && m.statsType.PortDesc? && (p.WaitPortDescReply? || p.WaitConfigReply?)
  }

  /** CopyOnWriteArrayList.removeAll. */
  function RemoveAll(xs: seq<Message>, ys: seq<Message>): (r: seq<Message>)
    ensures (forall x | x in xs :: x in ys) ==> r == []
  {
    if xs == [] then []
    else if xs[0] in ys then RemoveAll(xs[1..], ys)
    else [xs[0]] + RemoveAll(xs[1..], ys)
  }

  class OFChannelHandler {
    var state: Option<Phase>  // none before the channel is connected
    var sw: OpenFlowSwitch?
    var thisdpid: int
    var duplicateDpidFound: bool
    var featuresReply: Option<Message>
    var portDescReplies: seq<Message>
    var pendingPortStatusMsg: seq<Message>
    var ofVersion: Option<Version>
    var handshakeTransactionIds: int
    var sent: seq<Request>

    ghost var received: seq<Input>

    /** What the handler keeps for itself, against what was received. */
    ghost predicate Keeps(h: seq<Input>)
      reads this
    {
      var p := After(h);
      && state == Some(p.phase)
      && ofVersion == p.version && featuresReply == p.features
      && (p.features.Some? && p.features.value.FeaturesReply? ==> thisdpid == p.features.value.dpid)
      && portDescReplies == PortDescs(h)
      && pendingPortStatusMsg == (if p.phase.Active? then [] else Buffered(h))
      && duplicateDpidFound == Refused(h)
      && Follows(sent, Script(p)) && handshakeTransactionIds == -1 - |sent|
      && (Rank(p.phase) >= 5 ==> sw != null)
    }

    /** What the switch object holds: its driver waits exactly in the phase of the sub-handshake. */
    ghost predicate SwitchKeeps(h: seq<Input>)
      reads this, sw
    {
      var p := After(h);
      Rank(p.phase) >= 5 && sw != null ==>
        && p.driver == Some(sw.driver) && sw.startDriverHandshakeCalled && sw.XidsSet()
        && (sw.handshakeComplete <==> p.phase.Active?)
        && sw.version == ofVersion && sw.version.Some?
        && sw.features == SwitchFeatures(h) && sw.portDescs == SwitchPorts(h)
        && sw.handled == if p.phase.Active? then Buffered(h) + Dispatched(h) else []
    }

    ghost predicate Valid()
      reads this, sw
    {
      && (state.None? ==> Fresh())
      && (state.Some? ==> Keeps(received) && SwitchKeeps(received))
    }

    ghost predicate Fresh()
      reads this
    {
      && received == [] && sw == null && ofVersion.None? && featuresReply.None? && portDescReplies == []
      && pendingPortStatusMsg == [] && !duplicateDpidFound && sent == [] && handshakeTransactionIds == -1
    }

    constructor ()
      ensures Valid() && state.None?
    {
      state, sw, thisdpid, duplicateDpidFound := None, null, 0, false;
      featuresReply, portDescReplies, pendingPortStatusMsg, ofVersion := None, [], [], None;
      handshakeTransactionIds, sent, received := -1, [], [];
    }

    /** Called once, when the connection has been made. */
    method ChannelConnected()
      requires Valid() && state.None?
      modifies this
      ensures Valid() && state == Some(WaitHello) && received == []
    {
      state := Some(WaitHello);
    }

    /** Writes one handshake request under the next transaction id, counting down. */
    method Send(kind: RequestKind)
      modifies this`sent, this`handshakeTransactionIds
      ensures sent == old(sent) + Numbered([kind], old(handshakeTransactionIds))
      ensures handshakeTransactionIds == old(handshakeTransactionIds) - 1
    {
      sent := sent + [Request(kind, handshakeTransactionIds)];
      handshakeTransactionIds := handshakeTransactionIds - 1;
    }

    method SendSetConfig()
      requires featuresReply.Some? && featuresReply.value.FeaturesReply?
      modifies this`sent, this`handshakeTransactionIds
      ensures sent == old(sent) + Numbered(ConfigRequests(featuresReply.value), old(handshakeTransactionIds))
      ensures handshakeTransactionIds == old(handshakeTransactionIds) - (|sent| - |old(sent)|)
    {
      if featuresReply.value.buffers > 0 {
        Send(SetConfig);
      }
      Send(BarrierRequest);
      Send(GetConfigRequest);
    }

    /** In WAIT_HELLO: the version is settled, unless it is too old. */
    method OnHello(i: Input) returns (o: Outcome)
      requires Valid() && state == Some(WaitHello)
      modifies this
      ensures Valid() && received == old(received) + [i]
      ensures sw == old(sw)
      ensures o == Answer(After(old(received)), i)
    {
      hide After, Buffered, Dispatched, PortDescs, Refused, SwitchFeatures, SwitchPorts, Follows, Script;
      ReceiveAppends(received, i);
      AskingFollows(sent, received, i);
      received := received + [i];
      match i.message
      case Hello(v) =>
        if v >= OF_13_WIRE_VERSION {
          Send(HelloRequest);
          ofVersion := Some(OF_13);
        } else if v >= OF_10_WIRE_VERSION {
          Send(HelloRequest);
          ofVersion := Some(OF_10);
        } else {
          return Done;
        }
        NumberedTogether(old(sent), HelloRequest, FeaturesRequest, old(handshakeTransactionIds));
        Send(FeaturesRequest);
        state := Some(WaitFeaturesReply);
        return Done;
      case _ => return if Illegal(WaitHello, i.message) then StateError else Done;
    }

    /** In WAIT_FEATURES_REPLY: a 1.0 switch is configured at once, a 1.3 switch asked for its ports. */
    method OnFeatures(i: Input) returns (o: Outcome)
      requires Valid() && state == Some(WaitFeaturesReply)
      modifies this
      ensures Valid() && received == old(received) + [i]
      ensures sw == old(sw)
      ensures o == Answer(After(old(received)), i)
    {
      hide After, Buffered, Dispatched, PortDescs, Refused, SwitchFeatures, SwitchPorts, Follows, Script;
      ProgressIsConsistent(received);
      ReceiveAppends(received, i);
      AskingFollows(sent, received, i);
      received := received + [i];
      match i.message
      case FeaturesReply(dpid, _) =>
        thisdpid := dpid;
        featuresReply := Some(i.message);
        if ofVersion == Some(OF_10) {
          SendSetConfig();
          state := Some(WaitConfigReply);
        } else {
          Send(PortDescRequest);
          state := Some(WaitPortDescReply);
        }
        return Done;
      case PortStatus(_) =>
        pendingPortStatusMsg := pendingPortStatusMsg + [i.message];
        return Done;
      case _ => return if Illegal(WaitFeaturesReply, i.message) then StateError else Done;
    }

    /** In WAIT_PORT_DESC_REPLY: replies are collected up to the final one. */
    method OnPortDesc(i: Input) returns (o: Outcome)
      requires Valid() && state == Some(WaitPortDescReply)
      modifies this
      ensures Valid() && received == old(received) + [i]
      ensures sw == old(sw)
      ensures o == Answer(After(old(received)), i)
    {
      hide After, Buffered, Dispatched, PortDescs, Refused, SwitchFeatures, SwitchPorts, Follows, Script;
      ProgressIsConsistent(received);
      ReceiveAppends(received, i);
      AskingFollows(sent, received, i);
      received := received + [i];
      match i.message
      case StatsReply(_, statsType, more) =>
        if statsType.PortDesc? {
          portDescReplies := portDescReplies + [i.message];
          if !more {
            SendSetConfig();
            state := Some(WaitConfigReply);
          }
        }
        return Done;
      case PortStatus(_) =>
        pendingPortStatusMsg := pendingPortStatusMsg + [i.message];
        return Done;
      case _ => return if Illegal(WaitPortDescReply, i.message) then StateError else Done;
    }

    /** In WAIT_CONFIG_REPLY: late port descriptions are still collected. */
    method OnConfig(i: Input) returns (o: Outcome)
      requires Valid() && state == Some(WaitConfigReply)
      modifies this
      ensures Valid() && received == old(received) + [i]
      ensures sw == old(sw)
      ensures o == Answer(After(old(received)), i)
    {
      hide After, Buffered, Dispatched, PortDescs, Refused, SwitchFeatures, SwitchPorts, Follows, Script;
      ProgressIsConsistent(received);
      ReceiveAppends(received, i);
      AskingFollows(sent, received, i);
      received := received + [i];
      match i.message
      case GetConfigReply(_) =>
        Send(DescRequest);
        state := Some(WaitDescriptionStatReply);
        return Done;
      case StatsReply(_, statsType, _) =>
        if statsType.PortDesc? {
          portDescReplies := portDescReplies + [i.message];
          return Done;
        }
        return StateError;
      case PortStatus(_) =>
        pendingPortStatusMsg := pendingPortStatusMsg + [i.message];
        return Done;
      case _ => return if Illegal(WaitConfigReply, i.message) then StateError else Done;
    }

    /** Hands the port-status messages put aside to the switch, oldest first, and forgets them. */
    method HandlePendingPortStatusMessages()
      requires sw != null
      modifies this`pendingPortStatusMsg, sw`handled
      ensures pendingPortStatusMsg == [] && sw.handled == old(sw.handled) + old(pendingPortStatusMsg)
    {
      var temp := [];
      for k := 0 to |pendingPortStatusMsg|
        invariant temp == pendingPortStatusMsg[..k] && sw.handled == old(sw.handled) + temp
        modifies sw`handled
      {
        temp := temp + [pendingPortStatusMsg[k]];
        sw.handled := sw.handled + [pendingPortStatusMsg[k]];
      }
      assert temp == pendingPortStatusMsg;
      pendingPortStatusMsg := RemoveAll(pendingPortStatusMsg, temp);
    }

    /** In WAIT_DESCRIPTION_STAT_REPLY: the description selects the driver, which may be done at once. */
    method OnDescription(i: Input) returns (o: Outcome)
      requires Valid() && state == Some(WaitDescriptionStatReply)
      modifies this
      ensures Valid() && received == old(received) + [i]
      ensures sw == old(sw) || fresh(sw)
      ensures o == Answer(After(old(received)), i)
    {
      hide After, Buffered, Dispatched, PortDescs, Refused, SwitchFeatures, SwitchPorts, Follows, Script;
      ProgressIsConsistent(received);
      NothingDispatchedBefore(received);
      ReceiveAppends(received, i);
      AskingFollows(sent, received, i);
      received := received + [i];
      match i.message
      case StatsReply(_, statsType, _) =>
        if statsType.Desc? {
          o := BindSwitch(i);
        } else {
          o := Done;
        }
      case PortStatus(_) =>
        pendingPortStatusMsg := pendingPortStatusMsg + [i.message];
        return Done;
      case _ => return if Illegal(WaitDescriptionStatReply, i.message) then StateError else Done;
    }

    method BindSwitch(i: Input) returns (o: Outcome)
      modifies this`sw, this`duplicateDpidFound, this`pendingPortStatusMsg, this`state
      ensures sw != null && fresh(sw) && sw.driver == i.driver && sw.startDriverHandshakeCalled
      ensures sw.version == ofVersion && sw.features == featuresReply && sw.portDescs == portDescReplies
      ensures o == if i.driver.HP? && ofVersion == Some(OF_10) then Unsupported else Done
      ensures o.Done? ==> sw.XidsSet()
      ensures i.driver.Plain? ==>
                && sw.handshakeComplete && state == Some(Active)
                && sw.handled == old(pendingPortStatusMsg) && pendingPortStatusMsg == []
                && duplicateDpidFound == (old(duplicateDpidFound) || !i.connects)
      ensures i.driver.HP? ==>
                && !sw.handshakeComplete && sw.handled == []
                && state == (if o.Unsupported? then old(state) else Some(WaitSwitchDriverSubHandshake))
                && pendingPortStatusMsg == old(pendingPortStatusMsg) && duplicateDpidFound == old(duplicateDpidFound)
    {
      var switch := new OpenFlowSwitch(i.driver);
      sw := switch;
      switch.version, switch.features, switch.portDescs := ofVersion, featuresReply, portDescReplies;
      o := switch.StartDriverHandshake();
      if !o.Done? {
        return;
      }
      var complete;
      o, complete := switch.IsDriverHandshakeComplete();
      if complete {
        if !i.connects {
          duplicateDpidFound := true;
        }
        HandlePendingPortStatusMessages();
        state := Some(Active);
      } else {
        state := Some(WaitSwitchDriverSubHandshake);
      }
    }

    /** In WAIT_SWITCH_DRIVER_SUB_HANDSHAKE nearly every message goes to the driver, port status too. */
    method OnSubHandshake(i: Input) returns (o: Outcome)
      requires Valid() && state == Some(WaitSwitchDriverSubHandshake)
      modifies this, sw
      ensures Valid() && received == old(received) + [i]
      ensures sw == old(sw)
      ensures o == Answer(After(old(received)), i)
    {
      hide After, Buffered, Dispatched, PortDescs, Refused, SwitchFeatures, SwitchPorts, Follows, Script;
      ProgressIsConsistent(received);
      SwitchIsAsCollected(received);
      NothingDispatchedBefore(received);
      ReceiveAppends(received, i);
      AskingFollows(sent, received, i);
      received := received + [i];
      var complete;
      o, complete := sw.IsDriverHandshakeComplete();
      if complete {
        assert false;  // the driver is never complete between two messages
      }
      if ForDriver(i) {
        o := AskDriver(i);
      }
    }

    method AskDriver(i: Input) returns (o: Outcome)
      requires sw != null && sw.driver.HP? && sw.startDriverHandshakeCalled && !sw.handshakeComplete && sw.XidsSet()
      requires state == Some(WaitSwitchDriverSubHandshake) && (i.message.Error? ==> !i.roleError)
      modifies this`duplicateDpidFound, this`pendingPortStatusMsg, this`state, sw
      ensures sw.XidsSet() && sw.startDriverHandshakeCalled
      ensures sw.version == old(sw.version) && sw.features == old(sw.features)
      ensures sw.portDescs == old(sw.portDescs)
      ensures o == if i.message.StatsReply? && i.message.xid == sw.driver.firstXid + 2
                      && !i.message.statsType.TableFeatures? then CastError
                   else Done
      ensures sw.handshakeComplete == Completes(sw.driver, i)
      ensures Completes(sw.driver, i) ==>
                && state == Some(Active) && sw.handled == old(sw.handled) + old(pendingPortStatusMsg)
                && pendingPortStatusMsg == [] && duplicateDpidFound == (old(duplicateDpidFound) || !i.connects)
      ensures !Completes(sw.driver, i) ==>
                && state == old(state) && sw.handled == old(sw.handled)
                && pendingPortStatusMsg == old(pendingPortStatusMsg) && duplicateDpidFound == old(duplicateDpidFound)
    {
      o := sw.ProcessDriverHandshakeMessage(i.message);
      if o.CastError? {
        return;
      }
      var asked, complete := sw.IsDriverHandshakeComplete();
      if complete {
        MoveToActive(i.connects);
      }
    }

    method MoveToActive(success: bool)
      requires sw != null
      modifies this`duplicateDpidFound, this`pendingPortStatusMsg, this`state, sw`handled
      ensures state == Some(Active) && sw.handled == old(sw.handled) + old(pendingPortStatusMsg)
      ensures pendingPortStatusMsg == [] && duplicateDpidFound == (old(duplicateDpidFound) || !success)
    {
      HandlePendingPortStatusMessages();
      state := Some(Active);
      if !success {
        duplicateDpidFound := true;
      }
    }

    /** In ACTIVE messages are dispatched to the switch. */
    method OnActive(i: Input) returns (o: Outcome)
      requires Valid() && state == Some(Active)
      modifies this, sw
      ensures Valid() && received == old(received) + [i]
      ensures sw == old(sw)
      ensures o == Answer(After(old(received)), i)
    {
      hide After, Buffered, Dispatched, PortDescs, Refused, SwitchFeatures, SwitchPorts, Follows, Script;
      ProgressIsConsistent(received);
      ReceiveAppends(received, i);
      AskingFollows(sent, received, i);
      received := received + [i];
      if i.message.FeaturesReply? {
        sw.features := Some(i.message);
      } else if i.message.StatsReply? && i.message.statsType.PortDesc? {
        sw.portDescs := [i.message];
      }
      if GoesToSwitch(i.message) {
        sw.handled := sw.handled + [i.message];
      }
      return if Illegal(Active, i.message) then StateError else Done;
    }

    /**
     * One message in whatever phase ends as the automaton says. The driver's already-started,
     * not-started and completed exceptions never occur.
     */
    method ProcessOFMessage(i: Input) returns (o: Outcome)
      requires Valid()
      modifies this, sw
      ensures Valid() && !o.DriverError?
      ensures sw == old(sw) || fresh(sw)
      ensures old(state).None? ==> o.StateError? && state.None? && received == []
      ensures old(state).Some? ==>
                && received == old(received) + [i] && state == Some(After(received).phase)
                && o == Answer(After(old(received)), i)
    {
      match state
      case None => return StateError;
      case Some(WaitHello) => o := OnHello(i);
      case Some(WaitFeaturesReply) => o := OnFeatures(i);
      case Some(WaitPortDescReply) => o := OnPortDesc(i);
      case Some(WaitConfigReply) => o := OnConfig(i);
      case Some(WaitDescriptionStatReply) => o := OnDescription(i);
      case Some(WaitSwitchDriverSubHandshake) => o := OnSubHandshake(i);
      case Some(Active) => o := OnActive(i);
    }

    /** A list of messages from the channel: all of them, or those up to the first exception. */
    method MessageReceived(messages: seq<Input>) returns (o: Outcome, processed: nat)
      requires Valid() && state.Some?
      modifies this, sw
      ensures Valid() && state.Some?
      ensures processed <= |messages| && received == old(received) + messages[..processed]
      ensures o.Done? ==> processed == |messages| && AllDone(old(received), messages, processed)
      ensures !o.Done? ==>
                && 0 < processed && AllDone(old(received), messages, processed - 1)
                && o == Answer(After(old(received) + messages[..processed - 1]), messages[processed - 1])
    {
      hide Keeps, SwitchKeeps, Fresh, After, Answer;
      o, processed := Done, 0;
      while processed < |messages|
        invariant processed <= |messages| && Valid() && state.Some? && o.Done?
        invariant received == old(received) + messages[..processed]
        invariant AllDone(old(received), messages, processed)
        invariant sw == old(sw) || fresh(sw)
      {
        o := ProcessOFMessage(messages[processed]);
        processed := processed + 1;
        assert messages[..processed] == messages[..processed - 1] + [messages[processed - 1]];
        if !o.Done? {
          return;
        }
      }
    }
  }

  /** The first `n` messages after a history raise nothing. */
  ghost predicate AllDone(h: seq<Input>, messages: seq<Input>, n: nat)
    requires n <= |messages|
  {
    forall k | 0 <= k < n :: Answer(After(h + messages[..k]), messages[k]).Done?
  }

  lemma NumberedTogether(sent: seq<Request>, a: RequestKind, b: RequestKind, first: int)
    ensures sent + Numbered([a], first) + Numbered([b], first - 1) == sent + Numbered([a, b], first)
  {
  }

  /** What is asked of the switch in answer to a message. */
  function Asked(p: Progress, i: Input): seq<RequestKind> {
    match (p.phase, i.message)
    case (WaitHello, Hello(v)) => if v >= OF_10_WIRE_VERSION then [HelloRequest, FeaturesRequest] else []
    case (WaitFeaturesReply, FeaturesReply(_, _)) =>
      if p.version == Some(OF_10) then ConfigRequests(i.message) else [PortDescRequest]
    case (WaitPortDescReply, StatsReply(_, PortDesc, more)) =>
      if !more && p.features.Some? && p.features.value.FeaturesReply? then ConfigRequests(p.features.value) else []
    case (WaitConfigReply, GetConfigReply(_)) => [DescRequest]
    case _ => []
  }

  lemma ScriptGoesOn(h: seq<Input>, i: Input)
    ensures Script(Next(After(h), i)) == Script(After(h)) + Asked(After(h), i)
  {
    ProgressIsConsistent(h);
    hide After;
  }

  /** Asking what the message calls for keeps the requests in step with the script. */
  lemma AskingFollows(sent: seq<Request>, h: seq<Input>, i: Input)
    requires Follows(sent, Script(After(h)))
    ensures Follows(sent + Numbered(Asked(After(h), i), -1 - |sent|), Script(Next(After(h), i)))
    ensures Asked(After(h), i) == [] ==> Follows(sent, Script(Next(After(h), i)))
  {
    hide Follows, Script, After, Next, Asked;
    ScriptGoesOn(h, i);
    FollowsFurther(sent, Script(After(h)), Asked(After(h), i));
    assert sent + Numbered([], -1 - |sent|) == sent;
  }

  /** Sending more of the script keeps the requests in step with it. */
  lemma FollowsFurther(sent: seq<Request>, script: seq<RequestKind>, kinds: seq<RequestKind>)
    requires Follows(sent, script)
    ensures Follows(sent + Numbered(kinds, -1 - |sent|), script + kinds)
  {
  }

  function ConfigRequests(features: Message): seq<RequestKind>
    requires features.FeaturesReply?
  {
    (if features.buffers > 0 then [SetConfig] else []) + [BarrierRequest, GetConfigRequest]
  }

  function Numbered(kinds: seq<RequestKind>, first: int): seq<Request> {
    seq(|kinds|, i requires 0 <= i < |kinds| => Request(kinds[i], first - i))
  }
}
