/**
 * IPFIX templates as the exporter writes them, against a decoder written from RFC 7011: template
 * records and field specifiers (sections 3.2 and 3.4.1), withdrawals (section 8.1), data records
 * (section 3.4.3) and fields of variable length (section 7).
 */
module IpfixTemplates {
  import opened Bytes
  import opened Options

  datatype Ie =
    | OctetDeltaCount
    | PacketDeltaCount
    | ProtocolIdentifier
    | IpClassOfService
    | SourceTransportPort
    | SourceIPv4Address
    | IngressInterface
    | DestinationTransportPort
    | DestinationIPv4Address
    | EgressInterface
    | SourceIPv6Address
    | DestinationIPv6Address
    | FlowLabelIPv6
    | SourceMacAddress
    | VlanId
    | DestinationMacAddress
    | ExporterIPv4Address
    | ExporterIPv6Address
    | DroppedOctetDeltaCount
    | DroppedPacketDeltaCount
    | FlowStartMilliseconds
    | FlowEndMilliseconds
    | EthernetType
  {
    function Id(): (id: nat)
      ensures 1 <= id <= 256
    {
      match this
      case OctetDeltaCount => 1
      case PacketDeltaCount => 2
      case ProtocolIdentifier => 4
      case IpClassOfService => 5
      case SourceTransportPort => 7
      case SourceIPv4Address => 8
      case IngressInterface => 10
      case DestinationTransportPort => 11
      case DestinationIPv4Address => 12
      case EgressInterface => 14
      case SourceIPv6Address => 27
      case DestinationIPv6Address => 28
      case FlowLabelIPv6 => 31
      case SourceMacAddress => 56
      case VlanId => 58
      case DestinationMacAddress => 80
      case ExporterIPv4Address => 130
      case ExporterIPv6Address => 131
      case DroppedOctetDeltaCount => 132
      case DroppedPacketDeltaCount => 133
      case FlowStartMilliseconds => 152
      case FlowEndMilliseconds => 153
      case EthernetType => 256
    }

    function Length(): (length: nat)
      ensures 1 <= length <= 16
    {
      match this
      case OctetDeltaCount => 8
      case PacketDeltaCount => 8
      case ProtocolIdentifier => 1
      case IpClassOfService => 1
      case SourceTransportPort => 2
      case SourceIPv4Address => 4
      case IngressInterface => 4
      case DestinationTransportPort => 2
      case DestinationIPv4Address => 4
      case EgressInterface => 4
      case SourceIPv6Address => 16
      case DestinationIPv6Address => 16
      case FlowLabelIPv6 => 4
      case SourceMacAddress => 6
      case VlanId => 2
      case DestinationMacAddress => 6
      case ExporterIPv4Address => 4
      case ExporterIPv6Address => 16
      case DroppedOctetDeltaCount => 8
      case DroppedPacketDeltaCount => 8
      case FlowStartMilliseconds => 8
      case FlowEndMilliseconds => 8
      case EthernetType => 2
    }
  }

  // ----- Writing -----

  datatype Element = Element(id: int, length: int)

  function ElementBytes(e: Element): (bytes: seq<Byte>)
    ensures |bytes| == 4
  {
    BigEndian(e.id, 2) + BigEndian(e.length, 2)
  }

  function ElementsBytes(es: seq<Element>): (bytes: seq<Byte>)
    ensures |bytes| == 4 * |es|
  {
    if es == [] then [] else ElementBytes(es[0]) + ElementsBytes(es[1..])
  }

  lemma {:induction false} ElementsBytesAppend(es: seq<Element>, e: Element)
    ensures ElementsBytes(es + [e]) == ElementsBytes(es) + ElementBytes(e)
  {
    if es != [] {
      ElementsBytesAppend(es[1..], e);
      assert (es + [e])[1..] == es[1..] + [e];
    }
  }

  function TemplateBytes(id: int, fieldCount: int, es: seq<Element>): seq<Byte> {
    BigEndian(id, 2) + BigEndian(fieldCount, 2) + ElementsBytes(es)
  }

  // ----- The decoder -----

  datatype Specifier = Specifier(id: nat, length: nat, enterprise: Option<nat>)

  datatype Template = Template(id: nat, specifiers: seq<Specifier>) | Withdrawal(id: nat)

  datatype Parsed<T> = Parsed(value: T, rest: seq<Byte>)

  const E_BIT := 0x8000
  const VARIABLE_LENGTH := 65535
  const FIRST_TEMPLATE_ID := 256

  /** A specifier with the enterprise bit set is followed by the number of the enterprise. */
  function ReadSpecifier(bytes: seq<Byte>): (r: Option<Parsed<Specifier>>)
    ensures r.Some? ==>
              && r.value.value.id < E_BIT && r.value.value.length < 0x1_0000
              && |r.value.rest| == |bytes| - if r.value.value.enterprise.Some? then 8 else 4
  {
    if |bytes| < 4 then None
    else
      var id, length := U16(bytes), U16(bytes[2..]);
      if id < E_BIT then Some(Parsed(Specifier(id, length, None), bytes[4..]))
      else if |bytes| < 8 then None
      else Some(Parsed(Specifier(id - E_BIT, length, Some(Value(bytes[4..8]))), bytes[8..]))
  }

  function ReadSpecifiers(bytes: seq<Byte>, count: nat): (r: Option<Parsed<seq<Specifier>>>)
    ensures r.Some? ==>
              && |r.value.value| == count
              && forall s | s in r.value.value :: s.id < E_BIT && s.length < 0x1_0000
    decreases count
  {
    if count == 0 then Some(Parsed([], bytes))
    else match ReadSpecifier(bytes)
      case None => None
      case Some(first) =>
        match ReadSpecifiers(first.rest, count - 1)
        case None => None
        case Some(others) => Some(Parsed([first.value] + others.value, others.rest))
  }

  /** A template without fields withdraws the template; ids below 256 are not those of templates. */
  function ReadTemplate(bytes: seq<Byte>): Option<Parsed<Template>> {
    if |bytes| < 4 || U16(bytes) < FIRST_TEMPLATE_ID then None
    else if U16(bytes[2..]) == 0 then Some(Parsed(Withdrawal(U16(bytes)), bytes[4..]))
    else match ReadSpecifiers(bytes[4..], U16(bytes[2..]))
      case None => None
      case Some(p) => Some(Parsed(Template(U16(bytes), p.value), p.rest))
  }

  datatype Decoded = Decoded(id: nat, enterprise: Option<nat>, octets: seq<Byte>)

  /** Where the octets of a field start and how many there are; a variable length is in the data. */
  function Extent(s: Specifier, bytes: seq<Byte>): Option<(nat, nat)> {
    if s.length != VARIABLE_LENGTH then Some((0, s.length))
    else if |bytes| < 1 then None
    else if bytes[0] < 255 then Some((1, bytes[0]))
    else if |bytes| < 3 then None
    else Some((3, U16(bytes[1..])))
  }

  function ReadFields(specifiers: seq<Specifier>, bytes: seq<Byte>): Option<Parsed<seq<Decoded>>> {
    if specifiers == [] then Some(Parsed([], bytes))
    else match Extent(specifiers[0], bytes)
      case None => None
      case Some((start, length)) =>
        if |bytes| < start + length then None
        else match ReadFields(specifiers[1..], bytes[start + length..])
          case None => None
          case Some(others) =>
            var first := Decoded(specifiers[0].id, specifiers[0].enterprise, bytes[start..start + length]);
            Some(Parsed([first] + others.value, others.rest))
  }

  // ----- Templates decode back -----

  predicate IsSpecified(e: Element) {
    0 <= e.id < 0x8000 && 0 <= e.length < 0x1_0000
  }

  function SpecifierOf(e: Element): Specifier
    requires IsSpecified(e)
  {
    Specifier(e.id, e.length, None)
  }

  function SpecifiersOf(es: seq<Element>): seq<Specifier>
    requires forall e | e in es :: IsSpecified(e)
  {
    seq(|es|, i requires 0 <= i < |es| => assert es[i] in es; SpecifierOf(es[i]))
  }

  lemma ElementDecodes(e: Element, rest: seq<Byte>)
    requires IsSpecified(e)
    ensures ReadSpecifier(ElementBytes(e) + rest) == Some(Parsed(SpecifierOf(e), rest))
  {
    var bytes := ElementBytes(e) + rest;
    U16OfBigEndian(e.id, BigEndian(e.length, 2) + rest);
    U16OfBigEndian(e.length, rest);
    assert bytes == BigEndian(e.id, 2) + (BigEndian(e.length, 2) + rest);
    assert bytes[2..] == BigEndian(e.length, 2) + rest;
    assert bytes[4..] == rest;
  }

  lemma FirstSpecifierRead(bytes: seq<Byte>, count: nat, first: Parsed<Specifier>, others: Parsed<seq<Specifier>>)
    requires count > 0 && ReadSpecifier(bytes) == Some(first) && ReadSpecifiers(first.rest, count - 1) == Some(others)
    ensures ReadSpecifiers(bytes, count) == Some(Parsed([first.value] + others.value, others.rest))
  {
    hide ReadSpecifier;
  }

  lemma {:induction false} ElementsDecode(es: seq<Element>, rest: seq<Byte>)
    requires forall e | e in es :: IsSpecified(e)
    ensures ReadSpecifiers(ElementsBytes(es) + rest, |es|) == Some(Parsed(SpecifiersOf(es), rest))
  {
    hide ReadSpecifier, ElementBytes, IsSpecified;
    if es == [] {
      assert ElementsBytes(es) + rest == rest;
    } else {
      hide ReadSpecifiers;
      var tail := ElementsBytes(es[1..]) + rest;
      ElementDecodes(es[0], tail);
      assert ElementsBytes(es) + rest == ElementBytes(es[0]) + tail;
      assert forall e | e in es[1..] :: e in es;
      ElementsDecode(es[1..], rest);
      FirstSpecifierRead(ElementsBytes(es) + rest, |es|, Parsed(SpecifierOf(es[0]), tail),
                         Parsed(SpecifiersOf(es[1..]), rest));
      assert SpecifiersOf(es) == [SpecifierOf(es[0])] + SpecifiersOf(es[1..]);
    }
  }

  /** What a template record has to be like for a collector to read it as it was meant. */
  predicate IsReadable(id: int, fieldCount: int, es: seq<Element>) {
    && 256 <= id < 0x1_0000
    && es != [] && fieldCount % 0x1_0000 == |es|
    && forall e | e in es :: IsSpecified(e)
  }

  lemma HeaderDecodes(id: int, fieldCount: int, es: seq<Element>)
    ensures var bytes := TemplateBytes(id, fieldCount, es);
            && |bytes| == 4 + 4 * |es|
            && U16(bytes) == id % 0x1_0000 && U16(bytes[2..]) == fieldCount % 0x1_0000
            && bytes[4..] == ElementsBytes(es) + []
  {
    hide BigEndian, U16, ElementsBytes;
    var bytes := TemplateBytes(id, fieldCount, es);
    U16OfBigEndian(id, BigEndian(fieldCount, 2) + ElementsBytes(es));
    U16OfBigEndian(fieldCount, ElementsBytes(es));
    assert bytes == BigEndian(id, 2) + (BigEndian(fieldCount, 2) + ElementsBytes(es));
    assert bytes[2..] == BigEndian(fieldCount, 2) + ElementsBytes(es);
  }

  lemma {:induction false} ElementLayout(es: seq<Element>, i: nat)
    requires i < |es|
    ensures var bytes := ElementsBytes(es);
            && 256 * bytes[4 * i] as int + bytes[4 * i + 1] as int == es[i].id % 0x1_0000
            && 256 * bytes[4 * i + 2] as int + bytes[4 * i + 3] as int == es[i].length % 0x1_0000
  {
    var first, tail := ElementBytes(es[0]), ElementsBytes(es[1..]);
    assert ElementsBytes(es) == first + tail;
    if i == 0 {
      U16OfBigEndian(es[0].id, BigEndian(es[0].length, 2));
      U16OfBigEndian(es[0].length, []);
      assert first[2..] == BigEndian(es[0].length, 2) + [];
    } else {
      hide ElementBytes, ElementsBytes;
      ElementLayout(es[1..], i - 1);
      assert forall k | 4 <= k < |first + tail| :: (first + tail)[k] == tail[k - 4];
    }
  }

  /** A template is its identifier and the count, then the identifier and the length of each field in turn. */
  lemma TemplateLayout(id: int, fieldCount: int, es: seq<Element>, i: nat)
    requires i < |es|
    ensures var bytes := TemplateBytes(id, fieldCount, es);
            && |bytes| == 4 + 4 * |es|
            && 256 * bytes[0] as int + bytes[1] as int == id % 0x1_0000
            && 256 * bytes[2] as int + bytes[3] as int == fieldCount % 0x1_0000
            && 256 * bytes[4 + 4 * i] as int + bytes[5 + 4 * i] as int == es[i].id % 0x1_0000
            && 256 * bytes[6 + 4 * i] as int + bytes[7 + 4 * i] as int == es[i].length % 0x1_0000
  {
    HeaderDecodes(id, fieldCount, es);
    ElementLayout(es, i);
    hide ElementsBytes, TemplateBytes;
    var bytes, fields := TemplateBytes(id, fieldCount, es), ElementsBytes(es);
    assert forall k | 0 <= k < |fields| :: bytes[4..][k] == fields[k];
  }

  /** A collector has read the whole record, and read it as it was meant. */
  ghost predicate ReadAsMeant(r: Option<Parsed<Template>>, id: int, es: seq<Element>) {
    && r.Some? && r.value.rest == []
    && r.value.value.Template? && r.value.value.id == id
    && |r.value.value.specifiers| == |es|
    && forall i {:trigger es[i]} | 0 <= i < |es| ::
         var s := r.value.value.specifiers[i];
         s.id == es[i].id && s.length == es[i].length && s.enterprise.None?
  }

  /**
   * The bytes of a template decode back exactly if the identifiers and lengths fit their fields,
   * no identifier sets the enterprise bit, and the count set by hand is that of the elements.
   */
  lemma TemplateDecodesIff(id: int, fieldCount: int, es: seq<Element>)
    ensures ReadAsMeant(ReadTemplate(TemplateBytes(id, fieldCount, es)), id, es) <==> IsReadable(id, fieldCount, es)
  {
    hide TemplateBytes, ReadSpecifiers, U16, ElementsBytes, IsSpecified;
    HeaderDecodes(id, fieldCount, es);
    var r := ReadTemplate(TemplateBytes(id, fieldCount, es));
    if IsReadable(id, fieldCount, es) {
      ElementsDecode(es, []);
    } else if ReadAsMeant(r, id, es) {
      forall e | e in es ensures IsSpecified(e) {
        var i :| 0 <= i < |es| && es[i] == e;
        MeantIsSpecified(r.value.value.specifiers, i, e);
      }
      assert false;
    }
  }

  lemma MeantIsSpecified(specifiers: seq<Specifier>, i: nat, e: Element)
    requires i < |specifiers| && specifiers[i].id == e.id && specifiers[i].length == e.length
    requires forall s | s in specifiers :: s.id < E_BIT && s.length < 0x1_0000
    ensures IsSpecified(e)
  {
    assert specifiers[i] in specifiers;
  }
}
