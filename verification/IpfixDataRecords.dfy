/** The three data records of reactive forwarding, with their offsets and templates as written. */
module IpfixDataRecords {
  import opened Bytes
  import opened Options
  import opened IpfixTemplates
  import opened IpfixRecords

  /** An address of either version, which a field for the other version cannot hold. */
  type IpAddress = a: seq<Byte> | |a| == 4 || |a| == 16 witness [127, 0, 0, 1]

  type Ip6Address = a: seq<Byte> | |a| == 16 witness [0, 0, 0, 0, 0, 0, 0, 0, 0, 0, 0, 0, 0, 0, 0, 1]

  type MacAddress = a: seq<Byte> | |a| == 6 witness [0, 0, 0, 0, 0, 0]

  /** What the three records have in common: the whole of the one for link-layer flows. */
  datatype DataRecordRfwdMac = DataRecordRfwdMac(
    exporterIPv4Address: IpAddress, exporterIPv6Address: Ip6Address,
    flowStartMilliseconds: int, flowEndMilliseconds: int, octetDeltaCount: int, packetDeltaCount: int,
    ingressInterface: int, egressInterface: int,
    sourceMacAddress: MacAddress, destinationMacAddress: MacAddress, ethernetType: int, vlanId: int)
  {
    /** The fields in the order of the record. */
    function Fields(): (fields: seq<Field>)
      ensures AllFit(fields) && |fields| == MAC_FIELD_COUNT
    {
      [Field(ExporterIPv4Address, Octets(exporterIPv4Address)),
       Field(ExporterIPv6Address, Octets(exporterIPv6Address)),
       Field(FlowStartMilliseconds, Number(flowStartMilliseconds)),
       Field(FlowEndMilliseconds, Number(flowEndMilliseconds)),
       Field(OctetDeltaCount, Number(octetDeltaCount)),
       Field(PacketDeltaCount, Number(packetDeltaCount)),
       Field(IngressInterface, Number(ingressInterface)),
       Field(EgressInterface, Number(egressInterface)),
       Field(SourceMacAddress, Octets(sourceMacAddress)),
       Field(DestinationMacAddress, Octets(destinationMacAddress)),
       Field(EthernetType, Number(ethernetType)),
       Field(VlanId, Number(vlanId))]
    }

    /** What each field holds: whole numbers are written at the width of their Java type. */
    lemma FirstOctets()
      ensures var f := Fields();
              && FieldOctets(f[0]) == exporterIPv4Address[..4] && FieldOctets(f[1]) == exporterIPv6Address[..16]
              && FieldOctets(f[2]) == BigEndian(flowStartMilliseconds, 8)[..8]
              && FieldOctets(f[3]) == BigEndian(flowEndMilliseconds, 8)[..8]
              && FieldOctets(f[4]) == BigEndian(octetDeltaCount, 8)[..8]
              && FieldOctets(f[5]) == BigEndian(packetDeltaCount, 8)[..8]
    {
      hide BigEndian, Ie.Id;
    }

    lemma LastOctets()
      ensures var f := Fields();
              && FieldOctets(f[6]) == BigEndian(ingressInterface, 4)[..4]
              && FieldOctets(f[7]) == BigEndian(egressInterface, 4)[..4]
              && FieldOctets(f[8]) == sourceMacAddress[..6] && FieldOctets(f[9]) == destinationMacAddress[..6]
              && FieldOctets(f[10]) == BigEndian(ethernetType, 2)[..2]
              && FieldOctets(f[11]) == BigEndian(vlanId, 2)[..2]
    {
      hide BigEndian, Ie.Id;
    }

    /** The first octets of each of the three records. */
    method Fill(data: array<Byte>)
      requires data.Length >= MAC_LENGTH
      modifies data
      ensures data[..MAC_LENGTH] == RecordOctets(Fields())
    {
      hide DataRecordRfwdMac.Fields, FieldOctets, BigEndian, RecordOctets;
      var f := Fields();
      FirstOctets();
      LastOctets();
      NoOctets(f);
      Put(data, exporterIPv4Address, 0, 4, f, 0);
      Put(data, exporterIPv6Address, 4, 16, f, 1);
      Put(data, BigEndian(flowStartMilliseconds, 8), 20, 8, f, 2);
      Put(data, BigEndian(flowEndMilliseconds, 8), 28, 8, f, 3);
      Put(data, BigEndian(octetDeltaCount, 8), 36, 8, f, 4);
      Put(data, BigEndian(packetDeltaCount, 8), 44, 8, f, 5);
      Put(data, BigEndian(ingressInterface, 4), 52, 4, f, 6);
      Put(data, BigEndian(egressInterface, 4), 56, 4, f, 7);
      Put(data, sourceMacAddress, 60, 6, f, 8);
      Put(data, destinationMacAddress, 66, 6, f, 9);
      Put(data, BigEndian(ethernetType, 2), 72, 2, f, 10);
      Put(data, BigEndian(vlanId, 2), 74, 2, f, 11);
      assert f[..12] == f;
    }

    method GetBytes() returns (data: array<Byte>)
      ensures data.Length == MAC_LENGTH && data[..] == RecordOctets(Fields())
    {
      data := new Byte[MAC_LENGTH];
      Fill(data);
      assert data[..MAC_LENGTH] == data[..];
    }
  }

  const MAC_TEMPLATE_ID := 331
  const MAC_FIELD_COUNT := 12
  const MAC_LENGTH := 76

  datatype DataRecordRfwdIpv4 = DataRecordRfwdIpv4(
    link: DataRecordRfwdMac, sourceIPv4Address: IpAddress, destinationIPv4Address: IpAddress,
    protocolIdentifier: int, ipClassOfService: int, sourceTransportPort: int, destinationTransportPort: int)
  {
    function Fields(): (fields: seq<Field>)
      ensures AllFit(fields) && |fields| == IPV4_FIELD_COUNT && fields[..MAC_FIELD_COUNT] == link.Fields()
    {
      link.Fields() +
      [Field(SourceIPv4Address, Octets(sourceIPv4Address)),
       Field(DestinationIPv4Address, Octets(destinationIPv4Address)),
       Field(ProtocolIdentifier, Number(protocolIdentifier)),
       Field(IpClassOfService, Number(ipClassOfService)),
       Field(SourceTransportPort, Number(sourceTransportPort)),
       Field(DestinationTransportPort, Number(destinationTransportPort))]
    }

    /** The ports, 32 bits wide in Java, are written by their last two octets. */
    lemma NetworkOctets()
      ensures var f := Fields();
              && FieldOctets(f[12]) == sourceIPv4Address[..4] && FieldOctets(f[13]) == destinationIPv4Address[..4]
              && FieldOctets(f[14]) == BigEndian(protocolIdentifier, 1)[..1]
              && FieldOctets(f[15]) == BigEndian(ipClassOfService, 1)[..1]
              && FieldOctets(f[16]) == BigEndian(sourceTransportPort, 4)[2..4][..2]
              && FieldOctets(f[17]) == BigEndian(destinationTransportPort, 4)[2..4][..2]
    {
      hide BigEndian, Ie.Id, DataRecordRfwdMac.Fields;
      LowHalf(sourceTransportPort);
      LowHalf(destinationTransportPort);
    }

    method GetBytes() returns (data: array<Byte>)
      ensures data.Length == IPV4_LENGTH && data[..] == RecordOctets(Fields())
    {
      hide DataRecordRfwdIpv4.Fields, FieldOctets, BigEndian, RecordOctets;
      data := new Byte[IPV4_LENGTH];
      link.Fill(data);
      var f := Fields();
      NetworkOctets();
      Put(data, sourceIPv4Address, 76, 4, f, 12);
      Put(data, destinationIPv4Address, 80, 4, f, 13);
      Put(data, BigEndian(protocolIdentifier, 1), 84, 1, f, 14);
      Put(data, BigEndian(ipClassOfService, 1), 85, 1, f, 15);
      Put(data, BigEndian(sourceTransportPort, 4)[2..4], 86, 2, f, 16);
      Put(data, BigEndian(destinationTransportPort, 4)[2..4], 88, 2, f, 17);
      assert f[..18] == f && data[..IPV4_LENGTH] == data[..];
    }
  }

  const IPV4_TEMPLATE_ID := 332
  const IPV4_FIELD_COUNT := 18
  const IPV4_LENGTH := 90

  datatype DataRecordRfwdIpv6 = DataRecordRfwdIpv6(
    link: DataRecordRfwdMac, sourceIPv6Address: Ip6Address, destinationIPv6Address: Ip6Address, flowLabelIpv6: int,
    protocolIdentifier: int, ipClassOfService: int, sourceTransportPort: int, destinationTransportPort: int)
  {
    function Fields(): (fields: seq<Field>)
      ensures AllFit(fields) && |fields| == IPV6_FIELD_COUNT && fields[..MAC_FIELD_COUNT] == link.Fields()
    {
      link.Fields() +
      [Field(SourceIPv6Address, Octets(sourceIPv6Address)),
       Field(DestinationIPv6Address, Octets(destinationIPv6Address)),
       Field(FlowLabelIPv6, Number(flowLabelIpv6)),
       Field(ProtocolIdentifier, Number(protocolIdentifier)),
       Field(IpClassOfService, Number(ipClassOfService)),
       Field(SourceTransportPort, Number(sourceTransportPort)),
       Field(DestinationTransportPort, Number(destinationTransportPort))]
    }

    lemma NetworkOctets()
      ensures var f := Fields();
              && FieldOctets(f[12]) == sourceIPv6Address[..16] && FieldOctets(f[13]) == destinationIPv6Address[..16]
              && FieldOctets(f[14]) == BigEndian(flowLabelIpv6, 4)[..4]
              && FieldOctets(f[15]) == BigEndian(protocolIdentifier, 1)[..1]
              && FieldOctets(f[16]) == BigEndian(ipClassOfService, 1)[..1]
              && FieldOctets(f[17]) == BigEndian(sourceTransportPort, 4)[2..4][..2]
              && FieldOctets(f[18]) == BigEndian(destinationTransportPort, 4)[2..4][..2]
    {
      hide BigEndian, Ie.Id, DataRecordRfwdMac.Fields;
      LowHalf(sourceTransportPort);
      LowHalf(destinationTransportPort);
    }

    method GetBytes() returns (data: array<Byte>)
      ensures data.Length == IPV6_LENGTH && data[..] == RecordOctets(Fields())
    {
      hide DataRecordRfwdIpv6.Fields, FieldOctets, BigEndian, RecordOctets;
      data := new Byte[IPV6_LENGTH];
      link.Fill(data);
      var f := Fields();
      NetworkOctets();
      Put(data, sourceIPv6Address, 76, 16, f, 12);
      Put(data, destinationIPv6Address, 92, 16, f, 13);
      Put(data, BigEndian(flowLabelIpv6, 4), 108, 4, f, 14);
      Put(data, BigEndian(protocolIdentifier, 1), 112, 1, f, 15);
      Put(data, BigEndian(ipClassOfService, 1), 113, 1, f, 16);
      Put(data, BigEndian(sourceTransportPort, 4)[2..4], 114, 2, f, 17);
      Put(data, BigEndian(destinationTransportPort, 4)[2..4], 116, 2, f, 18);
      assert f[..19] == f && data[..IPV6_LENGTH] == data[..];
    }
  }

  const IPV6_TEMPLATE_ID := 333
  const IPV6_FIELD_COUNT := 19
  const IPV6_LENGTH := 118

  // ----- The templates, appended element by element -----

  const MAC_ELEMENTS: seq<Element> := [
    ElementOf(ExporterIPv4Address), ElementOf(ExporterIPv6Address), ElementOf(FlowStartMilliseconds),
    ElementOf(FlowEndMilliseconds), ElementOf(OctetDeltaCount), ElementOf(PacketDeltaCount)] + LINK_ELEMENTS

  const LINK_ELEMENTS: seq<Element> := [
    ElementOf(IngressInterface), ElementOf(EgressInterface), ElementOf(SourceMacAddress),
    ElementOf(DestinationMacAddress), ElementOf(EthernetType), ElementOf(VlanId)]

  lemma MacElementsMatch(r: DataRecordRfwdMac)
    ensures ElementsOf(r.Fields()) == MAC_ELEMENTS
  {
    hide ElementOf;
  }

  method AddMacElements(tr: TemplateRecord)
    requires tr.Elements() == []
    modifies tr`informationElements
    ensures tr.Elements() == MAC_ELEMENTS
  {
    hide ElementOf, TemplateRecord.Elements;
    tr.Add(ExporterIPv4Address);
    tr.Add(ExporterIPv6Address);
    tr.Add(FlowStartMilliseconds);
    tr.Add(FlowEndMilliseconds);
    tr.Add(OctetDeltaCount);
    tr.Add(PacketDeltaCount);
    AddLinkElements(tr);
  }

  method AddLinkElements(tr: TemplateRecord)
    modifies tr`informationElements
    ensures tr.Elements() == old(tr.Elements()) + LINK_ELEMENTS
  {
    hide ElementOf, TemplateRecord.Elements;
    tr.Add(IngressInterface);
    tr.Add(EgressInterface);
    tr.Add(SourceMacAddress);
    tr.Add(DestinationMacAddress);
    tr.Add(EthernetType);
    tr.Add(VlanId);
  }

  const IPV4_ELEMENTS: seq<Element> := [
    ElementOf(SourceIPv4Address), ElementOf(DestinationIPv4Address), ElementOf(ProtocolIdentifier),
    ElementOf(IpClassOfService), ElementOf(SourceTransportPort), ElementOf(DestinationTransportPort)]

  lemma Ipv4ElementsMatch(r: DataRecordRfwdIpv4)
    ensures ElementsOf(r.Fields()) == MAC_ELEMENTS + IPV4_ELEMENTS
  {
    hide ElementOf, DataRecordRfwdMac.Fields;
    MacElementsMatch(r.link);
    assert ElementsOf(r.Fields())[..12] == ElementsOf(r.link.Fields());
  }

  method AddIpv4Elements(tr: TemplateRecord)
    modifies tr`informationElements
    ensures tr.Elements() == old(tr.Elements()) + IPV4_ELEMENTS
  {
    hide ElementOf, TemplateRecord.Elements;
    tr.Add(SourceIPv4Address);
    tr.Add(DestinationIPv4Address);
    tr.Add(ProtocolIdentifier);
    tr.Add(IpClassOfService);
    tr.Add(SourceTransportPort);
    tr.Add(DestinationTransportPort);
  }

  const IPV6_ELEMENTS: seq<Element> := [
    ElementOf(SourceIPv6Address), ElementOf(DestinationIPv6Address), ElementOf(FlowLabelIPv6),
    ElementOf(ProtocolIdentifier), ElementOf(IpClassOfService), ElementOf(SourceTransportPort),
    ElementOf(DestinationTransportPort)]

  lemma Ipv6ElementsMatch(r: DataRecordRfwdIpv6)
    ensures ElementsOf(r.Fields()) == MAC_ELEMENTS + IPV6_ELEMENTS
  {
    hide ElementOf, DataRecordRfwdMac.Fields;
    MacElementsMatch(r.link);
    assert ElementsOf(r.Fields())[..12] == ElementsOf(r.link.Fields());
  }

  method AddIpv6Elements(tr: TemplateRecord)
    modifies tr`informationElements
    ensures tr.Elements() == old(tr.Elements()) + IPV6_ELEMENTS
  {
    hide ElementOf, TemplateRecord.Elements;
    tr.Add(SourceIPv6Address);
    tr.Add(DestinationIPv6Address);
    tr.Add(FlowLabelIPv6);
    tr.Add(ProtocolIdentifier);
    tr.Add(IpClassOfService);
    tr.Add(SourceTransportPort);
    tr.Add(DestinationTransportPort);
  }

  method MacTemplateRecord() returns (tr: TemplateRecord)
    ensures tr.templateID == MAC_TEMPLATE_ID && tr.fieldCount == MAC_FIELD_COUNT
    ensures forall r: DataRecordRfwdMac :: tr.Elements() == ElementsOf(r.Fields())
  {
    hide DataRecordRfwdMac.Fields, ElementsOf;
    tr := new TemplateRecord();
    tr.templateID, tr.fieldCount := MAC_TEMPLATE_ID, MAC_FIELD_COUNT;
    AddMacElements(tr);
    forall r: DataRecordRfwdMac ensures tr.Elements() == ElementsOf(r.Fields()) {
      MacElementsMatch(r);
    }
  }

  method Ipv4TemplateRecord() returns (tr: TemplateRecord)
    ensures tr.templateID == IPV4_TEMPLATE_ID && tr.fieldCount == IPV4_FIELD_COUNT
    ensures forall r: DataRecordRfwdIpv4 :: tr.Elements() == ElementsOf(r.Fields())
  {
    hide DataRecordRfwdIpv4.Fields, ElementsOf;
    tr := new TemplateRecord();
    tr.templateID, tr.fieldCount := IPV4_TEMPLATE_ID, IPV4_FIELD_COUNT;
    AddMacElements(tr);
    AddIpv4Elements(tr);
    forall r: DataRecordRfwdIpv4 ensures tr.Elements() == ElementsOf(r.Fields()) {
      Ipv4ElementsMatch(r);
    }
  }

  method Ipv6TemplateRecord() returns (tr: TemplateRecord)
    ensures tr.templateID == IPV6_TEMPLATE_ID && tr.fieldCount == IPV6_FIELD_COUNT
    ensures forall r: DataRecordRfwdIpv6 :: tr.Elements() == ElementsOf(r.Fields())
  {
    hide DataRecordRfwdIpv6.Fields, ElementsOf;
    tr := new TemplateRecord();
    tr.templateID, tr.fieldCount := IPV6_TEMPLATE_ID, IPV6_FIELD_COUNT;
    AddMacElements(tr);
    AddIpv6Elements(tr);
    forall r: DataRecordRfwdIpv6 ensures tr.Elements() == ElementsOf(r.Fields()) {
      Ipv6ElementsMatch(r);
    }
  }

  // ----- Standard-conforming export -----

  /** The record as a collector should see it, by the numbers that IANA assigned. */
  function MacCollected(r: DataRecordRfwdMac): (c: seq<Decoded>)
    ensures |c| == 12
  {
    [Decoded(130, None, r.exporterIPv4Address[..4]), Decoded(131, None, r.exporterIPv6Address),
     Decoded(152, None, BigEndian(r.flowStartMilliseconds, 8)), Decoded(153, None, BigEndian(r.flowEndMilliseconds, 8)),
     Decoded(1, None, BigEndian(r.octetDeltaCount, 8)), Decoded(2, None, BigEndian(r.packetDeltaCount, 8)),
     Decoded(10, None, BigEndian(r.ingressInterface, 4)), Decoded(14, None, BigEndian(r.egressInterface, 4)),
     Decoded(56, None, r.sourceMacAddress), Decoded(80, None, r.destinationMacAddress),
     Decoded(256, None, BigEndian(r.ethernetType, 2)), Decoded(58, None, BigEndian(r.vlanId, 2))]
  }

  function Ipv4Collected(r: DataRecordRfwdIpv4): (c: seq<Decoded>)
    ensures |c| == 18
  {
    MacCollected(r.link) +
    [Decoded(8, None, r.sourceIPv4Address[..4]), Decoded(12, None, r.destinationIPv4Address[..4]),
     Decoded(4, None, BigEndian(r.protocolIdentifier, 1)), Decoded(5, None, BigEndian(r.ipClassOfService, 1)),
     Decoded(7, None, BigEndian(r.sourceTransportPort, 2)), Decoded(11, None, BigEndian(r.destinationTransportPort, 2))]
  }

  function Ipv6Collected(r: DataRecordRfwdIpv6): (c: seq<Decoded>)
    ensures |c| == 19
  {
    MacCollected(r.link) +
    [Decoded(27, None, r.sourceIPv6Address), Decoded(28, None, r.destinationIPv6Address),
     Decoded(31, None, BigEndian(r.flowLabelIpv6, 4)),
     Decoded(4, None, BigEndian(r.protocolIdentifier, 1)), Decoded(5, None, BigEndian(r.ipClassOfService, 1)),
     Decoded(7, None, BigEndian(r.sourceTransportPort, 2)), Decoded(11, None, BigEndian(r.destinationTransportPort, 2))]
  }

  /** No number is used for two fields. */
  predicate NumbersDiffer(fields: seq<Decoded>) {
    forall i, j | 0 <= i < j < |fields| :: fields[i].id != fields[j].id
  }

  predicate FieldIs(f: Field, d: Decoded) {
    Fits(f) && d == Decoded(f.ie.Id(), None, FieldOctets(f))
  }

  lemma MacFirstFields(r: DataRecordRfwdMac)
    ensures var f, c := r.Fields(), MacCollected(r);
            && FieldIs(f[0], c[0])
            && FieldIs(f[1], c[1])
            && FieldIs(f[2], c[2])
            && FieldIs(f[3], c[3])
            && FieldIs(f[4], c[4])
            && FieldIs(f[5], c[5])
  {
    r.FirstOctets();
    assert r.exporterIPv6Address[..16] == r.exporterIPv6Address;
    assert BigEndian(r.flowStartMilliseconds, 8)[..8] == BigEndian(r.flowStartMilliseconds, 8);
    assert BigEndian(r.flowEndMilliseconds, 8)[..8] == BigEndian(r.flowEndMilliseconds, 8);
    assert BigEndian(r.octetDeltaCount, 8)[..8] == BigEndian(r.octetDeltaCount, 8);
    assert BigEndian(r.packetDeltaCount, 8)[..8] == BigEndian(r.packetDeltaCount, 8);
    hide FieldOctets, BigEndian;
  }

  lemma MacLastFields(r: DataRecordRfwdMac)
    ensures var f, c := r.Fields(), MacCollected(r);
            && FieldIs(f[6], c[6])
            && FieldIs(f[7], c[7])
            && FieldIs(f[8], c[8])
            && FieldIs(f[9], c[9])
            && FieldIs(f[10], c[10])
            && FieldIs(f[11], c[11])
  {
    r.LastOctets();
    assert BigEndian(r.ingressInterface, 4)[..4] == BigEndian(r.ingressInterface, 4);
    assert BigEndian(r.egressInterface, 4)[..4] == BigEndian(r.egressInterface, 4);
    assert r.sourceMacAddress[..6] == r.sourceMacAddress;
    assert r.destinationMacAddress[..6] == r.destinationMacAddress;
    assert BigEndian(r.ethernetType, 2)[..2] == BigEndian(r.ethernetType, 2);
    assert BigEndian(r.vlanId, 2)[..2] == BigEndian(r.vlanId, 2);
    hide FieldOctets, BigEndian;
  }

  lemma Ipv4NetworkFields(r: DataRecordRfwdIpv4)
    ensures var f, c := r.Fields(), Ipv4Collected(r);
            && FieldIs(f[12], c[12])
            && FieldIs(f[13], c[13])
            && FieldIs(f[14], c[14])
            && FieldIs(f[15], c[15])
            && FieldIs(f[16], c[16])
            && FieldIs(f[17], c[17])
  {
    r.NetworkOctets();
    LowHalf(r.sourceTransportPort);
    LowHalf(r.destinationTransportPort);
    assert BigEndian(r.protocolIdentifier, 1)[..1] == BigEndian(r.protocolIdentifier, 1);
    assert BigEndian(r.ipClassOfService, 1)[..1] == BigEndian(r.ipClassOfService, 1);
    hide FieldOctets, BigEndian, MacCollected, DataRecordRfwdMac.Fields;
  }

  lemma Ipv6NetworkFields(r: DataRecordRfwdIpv6)
    ensures var f, c := r.Fields(), Ipv6Collected(r);
            && FieldIs(f[12], c[12])
            && FieldIs(f[13], c[13])
            && FieldIs(f[14], c[14])
            && FieldIs(f[15], c[15])
            && FieldIs(f[16], c[16])
            && FieldIs(f[17], c[17])
            && FieldIs(f[18], c[18])
  {
    r.NetworkOctets();
    LowHalf(r.sourceTransportPort);
    LowHalf(r.destinationTransportPort);
    assert r.sourceIPv6Address[..16] == r.sourceIPv6Address;
    assert r.destinationIPv6Address[..16] == r.destinationIPv6Address;
    assert BigEndian(r.flowLabelIpv6, 4)[..4] == BigEndian(r.flowLabelIpv6, 4);
    assert BigEndian(r.protocolIdentifier, 1)[..1] == BigEndian(r.protocolIdentifier, 1);
    assert BigEndian(r.ipClassOfService, 1)[..1] == BigEndian(r.ipClassOfService, 1);
    hide FieldOctets, BigEndian, MacCollected, DataRecordRfwdMac.Fields;
  }

  predicate FieldsAre(fields: seq<Field>, collected: seq<Decoded>) {
    |fields| == |collected| && forall i | 0 <= i < |fields| :: FieldIs(fields[i], collected[i])
  }

  lemma HeadAndTail(fields: seq<Field>, collected: seq<Decoded>, n: nat)
    requires n <= |fields| == |collected|
    requires FieldsAre(fields[..n], collected[..n]) && FieldsAre(fields[n..], collected[n..])
    ensures FieldsAre(fields, collected)
  {
    hide FieldIs;
    forall i | 0 <= i < |fields| ensures FieldIs(fields[i], collected[i]) {
      if i < n {
        assert FieldIs(fields[..n][i], collected[..n][i]);
      } else {
        assert FieldIs(fields[n..][i - n], collected[n..][i - n]);
      }
    }
  }

  lemma AllFieldsAre(fields: seq<Field>, collected: seq<Decoded>)
    requires FieldsAre(fields, collected)
    ensures AllFit(fields) && DecodedOf(fields) == collected
  {
    hide FieldOctets, Ie.Id;
  }

  lemma MacFieldsAre(r: DataRecordRfwdMac)
    ensures FieldsAre(r.Fields(), MacCollected(r))
  {
    MacFirstFields(r);
    MacLastFields(r);
    hide DataRecordRfwdMac.Fields, MacCollected, FieldIs;
  }

  lemma MacFieldsAreCollected(r: DataRecordRfwdMac)
    ensures DecodedOf(r.Fields()) == MacCollected(r)
  {
    hide DecodedOf, FieldsAre;
    MacFieldsAre(r);
    AllFieldsAre(r.Fields(), MacCollected(r));
  }

  lemma Ipv4Head(r: DataRecordRfwdIpv4)
    ensures Ipv4Collected(r)[..12] == MacCollected(r.link)
  {
    hide MacCollected, BigEndian;
  }

  lemma Ipv4Tail(r: DataRecordRfwdIpv4)
    ensures FieldsAre(r.Fields()[12..], Ipv4Collected(r)[12..])
  {
    hide DataRecordRfwdIpv4.Fields, Ipv4Collected, FieldIs;
    Ipv4NetworkFields(r);
  }

  lemma Ipv4FieldsAreCollected(r: DataRecordRfwdIpv4)
    ensures DecodedOf(r.Fields()) == Ipv4Collected(r)
  {
    hide DataRecordRfwdIpv4.Fields, MacCollected, Ipv4Collected, FieldsAre, DecodedOf;
    Ipv4Head(r);
    Ipv4Tail(r);
    MacFieldsAre(r.link);
    HeadAndTail(r.Fields(), Ipv4Collected(r), 12);
    AllFieldsAre(r.Fields(), Ipv4Collected(r));
  }

  lemma Ipv6Head(r: DataRecordRfwdIpv6)
    ensures Ipv6Collected(r)[..12] == MacCollected(r.link)
  {
    hide MacCollected, BigEndian;
  }

  lemma Ipv6Tail(r: DataRecordRfwdIpv6)
    ensures FieldsAre(r.Fields()[12..], Ipv6Collected(r)[12..])
  {
    hide DataRecordRfwdIpv6.Fields, Ipv6Collected, FieldIs;
    Ipv6NetworkFields(r);
  }

  lemma Ipv6FieldsAreCollected(r: DataRecordRfwdIpv6)
    ensures DecodedOf(r.Fields()) == Ipv6Collected(r)
  {
    hide DataRecordRfwdIpv6.Fields, MacCollected, Ipv6Collected, FieldsAre, DecodedOf;
    Ipv6Head(r);
    Ipv6Tail(r);
    MacFieldsAre(r.link);
    HeadAndTail(r.Fields(), Ipv6Collected(r), 12);
    AllFieldsAre(r.Fields(), Ipv6Collected(r));
  }

  lemma MacNumbersDiffer(r: DataRecordRfwdMac)
    ensures NumbersDiffer(MacCollected(r))
  {
    hide BigEndian;
  }

  lemma Ipv4NumbersDiffer(r: DataRecordRfwdIpv4)
    ensures NumbersDiffer(Ipv4Collected(r))
  {
    hide BigEndian;
  }

  lemma Ipv6NumbersDiffer(r: DataRecordRfwdIpv6)
    ensures NumbersDiffer(Ipv6Collected(r))
  {
    hide BigEndian;
  }

  lemma DecodesTo(id: nat, fields: seq<Field>, collected: seq<Decoded>)
    requires FIRST_TEMPLATE_ID <= id < 0x1_0000 && 0 < |fields| < 0x1_0000
    requires AllFit(fields) && DecodedOf(fields) == collected
    ensures Decodes(id, |fields|, fields, collected)
  {
    hide DecodedOf, ReadTemplate, ReadFields, TemplateBytes, RecordOctets;
    RecordDecodesByItsTemplate(id, fields);
  }

  /**
   * A collector finds every field of a link-layer record under its own number and with its own
   * value, and the exporter's address exactly if it is of version 4.
   */
  lemma MacRecordDecodes(r: DataRecordRfwdMac)
    ensures Decodes(331, 12, r.Fields(), MacCollected(r)) && NumbersDiffer(MacCollected(r))
    ensures MacCollected(r)[0].octets == r.exporterIPv4Address <==> |r.exporterIPv4Address| == 4
  {
    WholeIffFour(r.exporterIPv4Address);
    MacNumbersDiffer(r);
    MacFieldsAreCollected(r);
    hide NumbersDiffer, DecodedOf, Decodes, DataRecordRfwdMac.Fields, BigEndian;
    DecodesTo(331, r.Fields(), MacCollected(r));
  }

  lemma Ipv4Values(r: DataRecordRfwdIpv4)
    ensures MacCollected(r.link)[0].octets == r.link.exporterIPv4Address <==> |r.link.exporterIPv4Address| == 4
    ensures Ipv4Collected(r)[12].octets == r.sourceIPv4Address <==> |r.sourceIPv4Address| == 4
    ensures Ipv4Collected(r)[13].octets == r.destinationIPv4Address <==> |r.destinationIPv4Address| == 4
    ensures Value(Ipv4Collected(r)[16].octets) == r.sourceTransportPort % 0x1_0000
    ensures Value(Ipv4Collected(r)[17].octets) == r.destinationTransportPort % 0x1_0000
  {
    PortIs16Bits(r.sourceTransportPort);
    PortIs16Bits(r.destinationTransportPort);
    WholeIffFour(r.link.exporterIPv4Address);
    WholeIffFour(r.sourceIPv4Address);
    WholeIffFour(r.destinationIPv4Address);
    hide BigEndian, Value;
  }

  /** Of an IPv4 record too; the ports are numbers of 16 bits. */
  lemma Ipv4RecordDecodes(r: DataRecordRfwdIpv4)
    ensures Decodes(332, 18, r.Fields(), Ipv4Collected(r)) && NumbersDiffer(Ipv4Collected(r))
    ensures MacCollected(r.link)[0].octets == r.link.exporterIPv4Address <==> |r.link.exporterIPv4Address| == 4
    ensures Ipv4Collected(r)[12].octets == r.sourceIPv4Address <==> |r.sourceIPv4Address| == 4
    ensures Ipv4Collected(r)[13].octets == r.destinationIPv4Address <==> |r.destinationIPv4Address| == 4
    ensures Value(Ipv4Collected(r)[16].octets) == r.sourceTransportPort % 0x1_0000
    ensures Value(Ipv4Collected(r)[17].octets) == r.destinationTransportPort % 0x1_0000
  {
    hide NumbersDiffer, DecodedOf, Decodes, DataRecordRfwdIpv4.Fields, MacCollected, Ipv4Collected, Value;
    Ipv4Values(r);
    Ipv4NumbersDiffer(r);
    Ipv4FieldsAreCollected(r);
    DecodesTo(332, r.Fields(), Ipv4Collected(r));
  }

  /** And of an IPv6 record. */
  lemma Ipv6RecordDecodes(r: DataRecordRfwdIpv6)
    ensures Decodes(333, 19, r.Fields(), Ipv6Collected(r)) && NumbersDiffer(Ipv6Collected(r))
    ensures MacCollected(r.link)[0].octets == r.link.exporterIPv4Address <==> |r.link.exporterIPv4Address| == 4
    ensures Value(Ipv6Collected(r)[17].octets) == r.sourceTransportPort % 0x1_0000
    ensures Value(Ipv6Collected(r)[18].octets) == r.destinationTransportPort % 0x1_0000
  {
    Ipv6Values(r);
    Ipv6NumbersDiffer(r);
    Ipv6FieldsAreCollected(r);
    hide NumbersDiffer, DecodedOf, Decodes, DataRecordRfwdIpv6.Fields, MacCollected, Ipv6Collected, Value;
    DecodesTo(333, r.Fields(), Ipv6Collected(r));
  }

  lemma Ipv6Values(r: DataRecordRfwdIpv6)
    ensures MacCollected(r.link)[0].octets == r.link.exporterIPv4Address <==> |r.link.exporterIPv4Address| == 4
    ensures Value(Ipv6Collected(r)[17].octets) == r.sourceTransportPort % 0x1_0000
    ensures Value(Ipv6Collected(r)[18].octets) == r.destinationTransportPort % 0x1_0000
  {
    PortIs16Bits(r.sourceTransportPort);
    PortIs16Bits(r.destinationTransportPort);
    WholeIffFour(r.link.exporterIPv4Address);
    hide BigEndian, Value;
  }

  lemma WholeIffFour(a: IpAddress)
    ensures a[..4] == a <==> |a| == 4
  {
    assert a[..|a|] == a;
  }

  lemma PortIs16Bits(port: int)
    ensures Value(BigEndian(port, 2)) == port % 0x1_0000
  {
    ValueOfBigEndian(port, 2);
    assert Range(1) == 256 && Range(2) == 0x1_0000;
  }

  /** From the bytes of the template alone, the bytes of the record are split into its fields. */
  ghost predicate Decodes(id: nat, fieldCount: nat, fields: seq<Field>, collected: seq<Decoded>) {
    && AllFit(fields)
    && var t := ReadTemplate(TemplateBytes(id, fieldCount, ElementsOf(fields)));
    && t.Some? && t.value.rest == [] && t.value.value.Template? && t.value.value.id == id
    && ReadFields(t.value.value.specifiers, RecordOctets(fields)) == Some(Parsed(collected, []))
  }

  lemma LowHalf(port: int)
    ensures BigEndian(port, 4)[2..4][..2] == BigEndian(port, 2)[..2] == BigEndian(port, 2)
  {
    LowOctets(port, 4, 2);
    assert BigEndian(port, 4)[2..] == BigEndian(port, 4)[2..4];
  }

  lemma NoOctets(fields: seq<Field>)
    ensures AllFit(fields) ==> RecordOctets(fields[..0]) == []
  {
  }

  /** Copies the octets of the next field; `at` is its hand-written offset. */
  method Put(data: array<Byte>, octets: seq<Byte>, at: nat, length: nat, ghost fields: seq<Field>, ghost k: nat)
    requires k < |fields| && AllFit(fields) && length <= |octets| && at + length <= data.Length
    requires data[..at] == RecordOctets(fields[..k])
    requires octets[..length] == FieldOctets(fields[k])
    modifies data
    ensures data[..at + length] == RecordOctets(fields[..k + 1])
  {
    RecordOctetsAppend(fields[..k], fields[k]);
    assert fields[..k + 1] == fields[..k] + [fields[k]];
    ArrayCopy(octets, data, at, length);
  }
}
