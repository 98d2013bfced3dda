/** How one IPFIX message is tested against one threshold, and what a stored mask is good for. */
module ThresholdMatching {
  import opened Options
  import opened PythonValues

  datatype Test = Pass | Fail | KeyError

  /** The membership test of the netaddr library: an address in a network written with a slash. */
  type SubnetTest = (Scalar, string) -> bool

  const PROTOCOL_IDENTIFIERS: map<Scalar, string> :=
    map[Num(1.0) := "icmp", Num(6.0) := "tcp", Num(17.0) := "udp", Num(58.0) := "icmp6"]

  /** What the handler takes for granted about a threshold it is given. */
  ghost predicate WellFormed(e: Entries) {
    && "fields" in e && e["fields"].Dict? && DistinctNames(e["fields"].fields)
    && (forall f | f in e["fields"].fields && TextField(f.name) :: f.value.Str?)
    && "priority" in e && e["priority"].Plain? && e["priority"].v.Num?
    && ("metric" in e ==> e["metric"].Plain? && e["metric"].v.Str?)
    && ("threshold" in e ==> e["threshold"].Plain? && e["threshold"].v.Num?)
    && ("subtype" in e ==> e["subtype"].Plain?)
  }

  predicate TextField(name: string) {
    name == "protocolIdentifier" || name == "sourceIPv4Address" || name == "destinationIPv4Address"
  }

  function TestProtocol(messageValue: Scalar, stateValue: string): Test {
    if messageValue !in PROTOCOL_IDENTIFIERS then KeyError
    else if PROTOCOL_IDENTIFIERS[messageValue] == Lower(stateValue) then Pass else Fail
  }

  function TestIpAddress(messageValue: Scalar, stateValue: string, inSubnet: SubnetTest): bool {
    if '/' in stateValue then inSubnet(messageValue, stateValue) else Str(stateValue) == messageValue
  }

  function TestField(f: Field, message: Message, inSubnet: SubnetTest): Test
    requires TextField(f.name) ==> f.value.Str?
  {
    if f.name !in message then KeyError
    else if f.name == "protocolIdentifier" then TestProtocol(message[f.name], f.value.s)
    else if f.name == "sourceIPv4Address" || f.name == "destinationIPv4Address" then
      if TestIpAddress(message[f.name], f.value.s, inSubnet) then Pass else Fail
    else if message[f.name] != f.value then Fail
    else Pass
  }

  ghost predicate Typed(fields: seq<Field>) {
    forall f | f in fields && TextField(f.name) :: f.value.Str?
  }

  /** Every named field is in the message and has an accepted value; order plays no part. */
  ghost predicate Matches(fields: seq<Field>, message: Message, inSubnet: SubnetTest)
    requires Typed(fields)
  {
    forall f | f in fields :: TestField(f, message, inSubnet) == Pass
  }

  /** The result of testing the fields one after the other. */
  function Outcome(fields: seq<Field>, message: Message, inSubnet: SubnetTest): Test
    requires Typed(fields)
  {
    if fields == [] then Pass
    else
      var first := TestField(fields[0], message, inSubnet);
      if first != Pass then first
      else assert forall f | f in fields[1..] :: f in fields; Outcome(fields[1..], message, inSubnet)
  }

  method TestMatchSimilarity(fields: seq<Field>, message: Message, inSubnet: SubnetTest) returns (t: Test)
    requires Typed(fields)
    ensures t == Outcome(fields, message, inSubnet)
    ensures t == Pass <==> Matches(fields, message, inSubnet)
    ensures t == KeyError ==> exists f :: f in fields && TestField(f, message, inSubnet) == KeyError
  {
    OutcomeIsMatch(fields, message, inSubnet);
    for i := 0 to |fields|
      invariant Outcome(fields, message, inSubnet) == Outcome(fields[i..], message, inSubnet)
      invariant forall j | 0 <= j < i :: TestField(fields[j], message, inSubnet) == Pass
    {
      assert fields[i] in fields && fields[i..][0] == fields[i] && fields[i..][1..] == fields[i + 1..];
      t := TestField(fields[i], message, inSubnet);
      if t != Pass {
        return;
      }
    }
    return Pass;
  }

  lemma {:induction false} OutcomeIsMatch(fields: seq<Field>, message: Message, inSubnet: SubnetTest)
    requires Typed(fields)
    ensures Outcome(fields, message, inSubnet) == Pass <==> Matches(fields, message, inSubnet)
  {
    if fields != [] {
      assert fields == [fields[0]] + fields[1..];
      OutcomeIsMatch(fields[1..], message, inSubnet);
    }
  }

  /** The subtypes agree if both sides have one. */
  function TestSubtype(e: Entries, message: Message): bool {
    "subtype" in e && "subtype" in message ==> e["subtype"] == Plain(message["subtype"])
  }

  /** The threshold applies to the message: the reference every look-up is held against. */
  ghost predicate Fires(e: Entries, message: Message, inSubnet: SubnetTest)
    requires WellFormed(e)
  {
    Matches(e["fields"].fields, message, inSubnet) && TestSubtype(e, message)
  }

  /** What a field asks of the value that the message has under its name. */
  ghost predicate Accepts(f: Field, v: Scalar, inSubnet: SubnetTest)
    requires TextField(f.name) ==> f.value.Str?
  {
    match f.name
    case "protocolIdentifier" =>
      var name := Lower(f.value.s);
      || (v == Num(1.0) && name == "icmp") || (v == Num(6.0) && name == "tcp")
      || (v == Num(17.0) && name == "udp") || (v == Num(58.0) && name == "icmp6")
    case "sourceIPv4Address" => AcceptsAddress(f.value.s, v, inSubnet)
    case "destinationIPv4Address" => AcceptsAddress(f.value.s, v, inSubnet)
    case _ => v == f.value
  }

  ghost predicate AcceptsAddress(address: string, v: Scalar, inSubnet: SubnetTest) {
    || (inSubnet(v, address) && exists i :: 0 <= i < |address| && address[i] == '/')
    || (v == Str(address) && forall i | 0 <= i < |address| :: address[i] != '/')
  }

  /** One field passes if the message has an accepted value, and only a missing name or an unknown number raises. */
  lemma FieldPassesIff(f: Field, message: Message, inSubnet: SubnetTest)
    requires TextField(f.name) ==> f.value.Str?
    ensures TestField(f, message, inSubnet) == Pass <==> f.name in message && Accepts(f, message[f.name], inSubnet)
    ensures TestField(f, message, inSubnet) == KeyError <==>
              || f.name !in message
              || (f.name == "protocolIdentifier" && message[f.name] !in {Num(1.0), Num(6.0), Num(17.0), Num(58.0)})
  {
  }

  /**
   * A threshold fires for exactly the messages whose values all its fields accept, unless both
   * sides name a subtype and these differ.
   */
  lemma FiresIff(e: Entries, message: Message, inSubnet: SubnetTest)
    requires WellFormed(e)
    ensures Fires(e, message, inSubnet) <==>
              && (forall f | f in e["fields"].fields :: f.name in message && Accepts(f, message[f.name], inSubnet))
              && !("subtype" in e && "subtype" in message && e["subtype"] != Plain(message["subtype"]))
  {
    hide Accepts, TestField;
    forall f | f in e["fields"].fields {
      FieldPassesIff(f, message, inSubnet);
    }
  }

  lemma SameEntriesFireAlike(a: Entries, b: Entries, message: Message, inSubnet: SubnetTest)
    requires WellFormed(a) && WellFormed(b) && SameEntries(a, b)
    ensures Fires(a, message, inSubnet) == Fires(b, message, inSubnet)
    ensures Names(a["fields"].fields) == Names(b["fields"].fields)
    ensures a["priority"] == b["priority"]
  {
    var fa, fb := a["fields"].fields, b["fields"].fields;
    assert SameValue(a["fields"], b["fields"]) && SameValue(a["priority"], b["priority"]);
    assert forall f :: f in fa <==> f in FieldSet(fa);
    assert forall f :: f in fb <==> f in FieldSet(fb);
    if "subtype" in a {
      assert SameValue(a["subtype"], b["subtype"]);
    }
  }

  // ----- Stale masks -----

  /** What a look-up through a mask finds out about a threshold stored under it. */
  function ThroughMask(mask: set<string>, fields: seq<Field>, message: Message, inSubnet: SubnetTest): Test
    requires Typed(fields)
  {
    if mask <= message.Keys then Outcome(fields, message, inSubnet) else Fail
  }

  /**
   * An update in place leaves a threshold under its old mask. For a threshold that some message
   * can match, the look-up stays right for all messages that have the given keys exactly if,
   * apart from these keys, the field names are those it was stored under.
   */
  lemma MaskIsRightIffNamesAgree(mask: set<string>, given: set<string>, fields: seq<Field>, sample: Message,
                                 inSubnet: SubnetTest)
    requires Typed(fields) && Matches(fields, sample, inSubnet) && given <= sample.Keys
    ensures (forall m: Message {:trigger ThroughMask(mask, fields, m, inSubnet)} | given <= m.Keys ::
               ThroughMask(mask, fields, m, inSubnet) == ThroughMask(Names(fields), fields, m, inSubnet))
       <==> mask - given == Names(fields) - given
  {
    var names := Names(fields);
    if mask - given == names - given {
      assert mask <= mask - given + given && names <= names - given + given;
      assert forall m: Message | given <= m.Keys :: mask <= m.Keys <==> names <= m.Keys;
    } else if mask - given <= names - given {
      var missing :| missing in names - given && missing !in mask;
      var m := map k | k in sample && k != missing :: sample[k];
      LackingFieldRaises(fields, sample, m, missing, inSubnet);
      assert forall f | f in fields :: f.name in sample;
      assert mask <= m.Keys by {
        assert forall k | k in mask :: k in given || k in names - given;
      }
      assert ThroughMask(mask, fields, m, inSubnet) == KeyError != ThroughMask(names, fields, m, inSubnet);
    } else {
      var m := map k | k in sample && (k in names || k in given) :: sample[k];
      assert forall f | f in fields :: f.name in names && TestField(f, m, inSubnet) == TestField(f, sample, inSubnet);
      OutcomeIsMatch(fields, m, inSubnet);
      assert ThroughMask(mask, fields, m, inSubnet) == Fail != ThroughMask(names, fields, m, inSubnet);
    }
  }

  lemma {:induction false} LackingFieldRaises(fields: seq<Field>, full: Message, m: Message, missing: string,
                                              inSubnet: SubnetTest)
    requires Typed(fields) && Matches(fields, full, inSubnet)
    requires missing in Names(fields) && missing !in m
    requires forall k | k in full && k != missing :: k in m && m[k] == full[k]
    ensures Outcome(fields, m, inSubnet) == KeyError
  {
    assert fields[0] in fields;
    assert fields == [fields[0]] + fields[1..];
    if fields[0].name != missing {
      assert TestField(fields[0], full, inSubnet) == Pass;
      LackingFieldRaises(fields[1..], full, m, missing, inSubnet);
    }
  }

  // ----- Choosing and checking -----

  const VALID_METRICS := {"byte_total", "packet_total", "byte_diff", "packet_diff", "time_diff",
                          "delta_bps", "delta_pps", "avg_bps", "avg_pps"}

  datatype Stat = Number(x: real) | Duration(microseconds: int)

  /** The statistics gathered for one message; a missing one is not in the dictionary. */
  datatype FlowStats = FlowStats(
    byteTotal: real, packetTotal: real,
    byteDiff: Option<real>, packetDiff: Option<real>, timeDiff: Option<int>,
    deltaBps: Option<real>, deltaPps: Option<real>, avgBps: Option<real>, avgPps: Option<real>)
  {
    function Get(metric: string): Option<Stat> {
      if metric == "byte_total" then Some(Number(byteTotal))
      else if metric == "packet_total" then Some(Number(packetTotal))
      else if metric == "byte_diff" then AsNumber(byteDiff)
      else if metric == "packet_diff" then AsNumber(packetDiff)
      else if metric == "time_diff" then
        if timeDiff.Some? then Some(Duration(timeDiff.value)) else None
      else if metric == "delta_bps" then AsNumber(deltaBps)
      else if metric == "delta_pps" then AsNumber(deltaPps)
      else if metric == "avg_bps" then AsNumber(avgBps)
      else if metric == "avg_pps" then AsNumber(avgPps)
      else None
    }

    static function AsNumber(x: Option<real>): Option<Stat> {
      if x.Some? then Some(Number(x.value)) else None
    }
  }

  datatype Verdict = Exceeded | NotExceeded | TypeError

  function CheckThreshold(stats: FlowStats, e: Entries): Verdict
    requires WellFormed(e)
  {
    if "metric" !in e || "threshold" !in e then Exceeded
    else if e["metric"].v.s !in VALID_METRICS then NotExceeded
    else match stats.Get(e["metric"].v.s)
      case None => NotExceeded
      case Some(Duration(_)) => TypeError  // a number cannot be compared with a timedelta
      case Some(Number(x)) => if e["threshold"].v.n < x then Exceeded else NotExceeded
  }

  /** Exactly the thresholds on a time difference cannot be checked, as soon as there is one. */
  lemma TypeErrorIff(stats: FlowStats, e: Entries)
    requires WellFormed(e)
    ensures CheckThreshold(stats, e).TypeError? <==>
              && "metric" in e && "threshold" in e && e["metric"].v == Str("time_diff") && stats.timeDiff.Some?
  {
    CheckJudges(stats, e);
  }

  /** What is decided about a threshold, metric by metric. */
  ghost predicate Judges(exceeded: bool, raised: bool, e: Entries, stats: FlowStats)
    requires WellFormed(e)
  {
    if "metric" !in e || "threshold" !in e then exceeded && !raised
    else
      var metric, limit := e["metric"].v.s, e["threshold"].v.n;
      && (metric == "byte_total" ==> (exceeded <==> limit < stats.byteTotal))
      && (metric == "packet_total" ==> (exceeded <==> limit < stats.packetTotal))
      && (metric == "byte_diff" ==> (exceeded <==> stats.byteDiff.Some? && limit < stats.byteDiff.value))
      && (metric == "packet_diff" ==> (exceeded <==> stats.packetDiff.Some? && limit < stats.packetDiff.value))
      && (metric == "delta_bps" ==> (exceeded <==> stats.deltaBps.Some? && limit < stats.deltaBps.value))
      && (metric == "delta_pps" ==> (exceeded <==> stats.deltaPps.Some? && limit < stats.deltaPps.value))
      && (metric == "avg_bps" ==> (exceeded <==> stats.avgBps.Some? && limit < stats.avgBps.value))
      && (metric == "avg_pps" ==> (exceeded <==> stats.avgPps.Some? && limit < stats.avgPps.value))
      && (metric == "time_diff" || metric !in VALID_METRICS ==> !exceeded)
      && (raised <==> metric == "time_diff" && stats.timeDiff.Some?)
  }

  lemma CheckJudges(stats: FlowStats, e: Entries)
    requires WellFormed(e)
    ensures var verdict := CheckThreshold(stats, e);
            Judges(verdict.Exceeded?, verdict.TypeError?, e, stats)
  {
  }
}
