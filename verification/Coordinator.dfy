/** The message handler and the northbound interface at work on the same thresholds. */
module Coordinator {
  import opened PythonValues
  import opened ThresholdMatching
  import opened IpfixHandler
  import opened Watson

  /**
   * Each request and each message is one step, and the steps come in any order. `Valid` is what
   * every run keeps; `handler.NamesAgree` is what makes look-ups exact, and is lost only by an
   * update in place that changes the field names of an indexed threshold.
   */
  class Tennison {
    const nbi: WatsonNBI
    const handler: IPFIX

    ghost predicate Valid()
      reads this, nbi, handler, handler.rates, handler.thresholds, handler.thresholds.items.Values,
            handler.loaded.Values
    {
      && handler.thresholds == nbi.ipfixThresholds
      && nbi.ipfixThresholds != nbi.snortThresholds
      && handler.Valid()
    }

    constructor (ipfix: ThresholdDict, snort: ThresholdDict, file: SavedFile, inSubnet: SubnetTest)
      requires ipfix != snort && AllWellFormed(ipfix.items)
      ensures Valid() && handler.NamesAgree() && fresh(nbi) && fresh(handler) && fresh(handler.rates)
      ensures nbi.ipfixThresholds == ipfix && nbi.snortThresholds == snort && handler.inSubnet == inSubnet
      ensures handler.loaded == ipfix.items
    {
      nbi := new WatsonNBI(ipfix, snort, file);
      handler := new IPFIX(ipfix, inSubnet);
    }

    method AddIpfixThreshold(id: string, json: bool, req: Entries) returns (status: int)
      requires Valid() && (IPFIX_KEYS <= req.Keys ==> WellFormed(req))
      modifies nbi, nbi.ipfixThresholds
      ensures Valid()
      ensures var complete := {"fields", "subtype", "treatment", "priority"} <= req.Keys;
              status == if id !in old(nbi.ipfixThresholds.items) && json && complete then 200 else 400
      ensures status != 200 ==> nbi.ipfixThresholds.items == old(nbi.ipfixThresholds.items)
      ensures status == 200 ==>
                && id in nbi.ipfixThresholds.items
                && nbi.ipfixThresholds.items == old(nbi.ipfixThresholds.items)[id := nbi.ipfixThresholds.items[id]]
                && fresh(nbi.ipfixThresholds.items[id]) && nbi.ipfixThresholds.items[id].entries == req
      ensures handler.NamesAgree() == old(handler.NamesAgree())
    {
      status := nbi.Add(nbi.ipfixThresholds, id, json, req);
    }

    /**
     * Exact: the index stays right if the names stay, apart from those that every message has, or
     * if the object is not in the index.
     */
    method UpdateIpfixThreshold(id: string, json: bool, req: Entries) returns (status: int)
      requires Valid()
      requires id in nbi.ipfixThresholds.items ==> WellFormed(nbi.ipfixThresholds.items[id].entries + req)
      modifies nbi
      modifies if id in nbi.ipfixThresholds.items then {nbi.ipfixThresholds.items[id]} else {}
      ensures Valid() && nbi.ipfixThresholds.items == old(nbi.ipfixThresholds.items)
      ensures status == if id !in nbi.ipfixThresholds.items then 404 else if json then 200 else 400
      ensures status != 404 ==>
                nbi.ipfixThresholds.items[id].entries
                == old(nbi.ipfixThresholds.items[id].entries) + if json then req else map[]
      ensures status != 200 ==> handler.NamesAgree() == old(handler.NamesAgree())
      ensures status == 200 && old(handler.NamesAgree()) ==>
                var threshold := nbi.ipfixThresholds.items[id];
                handler.NamesAgree() <==>
                  threshold !in handler.loaded.Values || FieldNames(threshold) == old(FieldNames(threshold))
    {
      hide IsIndex, NameSetIs, WellFormed, WatsonNBI.FileIsCurrent;
      status := nbi.Update(nbi.ipfixThresholds, id, json, req);
      if status != NOT_FOUND {
        UpdateOfOne(nbi.ipfixThresholds.items[id]);
      }
    }

    /** The field names that matter for finding a threshold. */
    ghost function FieldNames(threshold: Threshold): set<string>
      requires WellFormed(threshold.entries)
      reads threshold
    {
      Names(threshold.entries["fields"].fields) - FLOW_KEYS
    }

    twostate lemma UpdateOfOne(threshold: Threshold)
      requires old(Valid()) && WellFormed(threshold.entries)
      requires unchanged(this, handler, handler.rates, handler.thresholds)
      requires threshold in handler.thresholds.items.Values
      requires forall t: Threshold | t in handler.thresholds.items.Values + handler.loaded.Values && t != threshold ::
                 t.entries == old(t.entries)
      ensures handler.Valid()
      ensures old(handler.NamesAgree()) ==>
                (handler.NamesAgree() <==>
                   threshold !in handler.loaded.Values || FieldNames(threshold) == old(FieldNames(threshold)))
      ensures threshold.entries == old(threshold.entries) ==> handler.NamesAgree() == old(handler.NamesAgree())
    {
      assert old(AllWellFormed(handler.loaded)) && old(AllWellFormed(handler.thresholds.items));
    }

    method RemoveIpfixThreshold(id: string) returns (status: int)
      requires Valid()
      modifies nbi, nbi.ipfixThresholds
      ensures Valid()
      ensures status == if id in old(nbi.ipfixThresholds.items) then 200 else 404
      ensures nbi.ipfixThresholds.items == old(nbi.ipfixThresholds.items) - {id}
      ensures handler.NamesAgree() == old(handler.NamesAgree())
    {
      status := nbi.RemoveIpfix(id);
    }

    method Handle(message: Message, now: int)
      returns (reaction: Reaction, stats: FlowStats,
               ghost matches: seq<Threshold>, ghost found: seq<string>, ghost at: nat)
      requires Valid() && CountsAreNumbers(message)
      modifies handler, handler.rates
      ensures Valid() && handler.LooksCurrent()
      ensures old(handler.NamesAgree() || !handler.LooksCurrent()) ==> handler.NamesAgree()
      ensures old(handler.LooksCurrent()) ==> handler.loaded == old(handler.loaded) && handler.home == old(handler.home)
      ensures handler.Reacts(reaction, matches, found, at, stats, message)
      ensures handler.Answers(reaction, matches, found, at, message)
      ensures Complete(message) ==> Decides(reaction, matches, at, old(handler.rates.history), message, now)
      ensures Counted(old(handler.rates.history), handler.rates.history, message, now, stats)
    {
      reaction, stats, matches, found, at := handler.Handle(message, now);
    }
  }

  // ----- An update in place that hides a threshold -----

  function Web(field: string): Entries {
    map["fields" := Dict([Field(field, Num(80.0))]), "subtype" := Plain(Str("ipfix")),
        "treatment" := Plain(Str("snort_mirror")), "priority" := Plain(Num(10.0))]
  }

  /** A message without any VLAN. */
  const WEB_MESSAGE: Message := map[
    "sourceIPv4Address" := Str("10.0.0.1"), "destinationIPv4Address" := Str("10.0.0.2"),
    "sourceTransportPort" := Num(80.0), "destinationTransportPort" := Num(5000.0),
    "octetDeltaCount" := Num(1.0), "packetDeltaCount" := Num(1.0)]

  lemma WebIsWellFormed()
    ensures WellFormed(Web("vlanId"))
  {
  }

  /** The coordinator has loaded this one threshold, on a VLAN. */
  method LoadWeb(inSubnet: SubnetTest) returns (t: Tennison)
    ensures fresh(t) && fresh(t.nbi) && fresh(t.handler) && fresh(t.handler.rates) && fresh(t.nbi.ipfixThresholds)
    ensures t.Valid() && t.handler.NamesAgree() && t.handler.inSubnet == inSubnet
    ensures t.handler.loaded == t.nbi.ipfixThresholds.items && t.handler.loaded.Keys == {"web"}
    ensures fresh(t.handler.loaded["web"]) && t.handler.loaded["web"].entries == Web("vlanId")
    ensures "web" in t.handler.home && "vlanId" in NamesIn(t.handler.home["web"])
  {
    hide Web, WellFormed, IsIndex, NameSetIs, SameEntries;
    WebIsWellFormed();
    var threshold := new Threshold(Web("vlanId"));
    var ipfix := new ThresholdDict();
    var snort := new ThresholdDict();
    ipfix.items := map["web" := threshold];
    t := new Tennison(ipfix, snort, SavedFile([], []), inSubnet);
    VlanIsInMask(NamesIn(t.handler.home["web"]));
  }

  lemma VlanIsInMask(names: set<string>)
    requires NameSetIs(Web("vlanId"), names)
    ensures "vlanId" in names
  {
    assert Web("vlanId")["fields"].fields[0].name == "vlanId";
    assert "vlanId" in Names(Web("vlanId")["fields"].fields) - FLOW_KEYS;
  }

  /** Under a mask with the VLAN the message finds nothing. */
  lemma VlanHides(handler: IPFIX, reaction: Reaction, matches: seq<Threshold>, found: seq<string>, at: nat,
                  stats: FlowStats)
    requires IsIndex(handler.loaded, handler.masks, handler.ids, handler.home) && AllWellFormed(handler.loaded)
    requires handler.loaded.Keys == {"web"} && "web" in handler.home && "vlanId" in NamesIn(handler.home["web"])
    requires handler.Reacts(reaction, matches, found, at, stats, WEB_MESSAGE)
    ensures reaction.NoThresholdFound?
  {
    hide IsIndex, CheckThreshold, Highest, Outcome;
    assert "vlanId" !in WEB_MESSAGE;
    assert !handler.Selects("web", WEB_MESSAGE) && !handler.RaisesFor("web", WEB_MESSAGE);
    if found != [] {
      assert found[0] in found;
    }
  }

  lemma WebFires(inSubnet: SubnetTest)
    ensures WellFormed(Web("sourceTransportPort")) && Fires(Web("sourceTransportPort"), WEB_MESSAGE, inSubnet)
    ensures Web("vlanId") + PORT_REQUEST == Web("sourceTransportPort")
  {
  }

  const PORT_REQUEST: Entries := map["fields" := Dict([Field("sourceTransportPort", Num(80.0))])]

  /**
   * A run: a threshold on a VLAN is changed to one on a source port, and a message from that port
   * arrives. The threshold is live and fires, but the index still has it under the VLAN.
   */
  method UpdateHidesAThreshold(inSubnet: SubnetTest) returns (t: Tennison, reaction: Reaction)
    ensures t.Valid() && "web" in t.handler.thresholds.items
    ensures Fires(t.handler.thresholds.items["web"].entries, WEB_MESSAGE, inSubnet)
    ensures reaction.NoThresholdFound?
  {
    hide Web, Fires, WellFormed, IPFIX.Reacts, IPFIX.Answers, Counted, NamesIn, NameSetIs, Tennison.FieldNames,
         IsIndex, PORT_REQUEST, WEB_MESSAGE, AllWellFormed, SameEntries, IPFIX.NamesAgree;
    t := LoadWeb(inSubnet);
    WebFires(inSubnet);
    var status := t.UpdateIpfixThreshold("web", true, PORT_REQUEST);
    SameEntriesReflexive(t.handler.loaded["web"].entries);
    NumbersInWebMessage();
    var stats;
    ghost var matches, found, at;
    reaction, stats, matches, found, at := t.Handle(WEB_MESSAGE, 0);
    VlanHides(t.handler, reaction, matches, found, at, stats);
  }

  lemma NumbersInWebMessage()
    ensures CountsAreNumbers(WEB_MESSAGE)
  {
  }
}
