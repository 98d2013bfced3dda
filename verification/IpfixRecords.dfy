/** The template and data records of the reactive forwarding application, filled in place. */
module IpfixRecords {
  import opened Bytes
  import opened Options
  import opened IpfixTemplates

  // ----- Data records as lists of fields -----

  datatype Content = Number(n: int) | Octets(bytes: seq<Byte>)

  datatype Field = Field(ie: Ie, content: Content)

  predicate Fits(f: Field) {
    f.content.Octets? ==> |f.content.bytes| >= f.ie.Length()
  }

  /** A number is truncated to its field, and so is an address that is too long for it. */
  function FieldOctets(f: Field): (bytes: seq<Byte>)
    requires Fits(f)
    ensures |bytes| == f.ie.Length()
  {
    match f.content
    case Number(n) => BigEndian(n, f.ie.Length())
    case Octets(bytes) => bytes[..f.ie.Length()]
  }

  predicate AllFit(fields: seq<Field>) {
    forall i | 0 <= i < |fields| :: Fits(fields[i])
  }

  function RecordOctets(fields: seq<Field>): seq<Byte>
    requires AllFit(fields)
  {
    if fields == [] then [] else FieldOctets(fields[0]) + RecordOctets(fields[1..])
  }

  lemma {:induction false} RecordOctetsAppend(fields: seq<Field>, f: Field)
    requires AllFit(fields) && Fits(f)
    ensures RecordOctets(fields + [f]) == RecordOctets(fields) + FieldOctets(f)
  {
    hide FieldOctets, Ie.Length, Ie.Id;
    if fields == [] {
      assert fields + [f] == [f] && [f][1..] == [];
      assert RecordOctets([f]) == FieldOctets(f) + [] == [] + FieldOctets(f);
    } else {
      RecordOctetsAppend(fields[1..], f);
      assert (fields + [f])[1..] == fields[1..] + [f];
    }
  }

  function ElementOf(ie: Ie): Element {
    Element(ie.Id(), ie.Length())
  }

  function ElementsOf(fields: seq<Field>): (es: seq<Element>)
    ensures forall e | e in es :: IsSpecified(e)
  {
    seq(|fields|, i requires 0 <= i < |fields| => ElementOf(fields[i].ie))
  }

  /** What a decoder finds for each field. */
  function DecodedOf(fields: seq<Field>): seq<Decoded>
    requires AllFit(fields)
  {
    seq(|fields|, i requires 0 <= i < |fields| => Decoded(fields[i].ie.Id(), None, FieldOctets(fields[i])))
  }

  lemma FirstFieldDecodes(specifiers: seq<Specifier>, bytes: seq<Byte>, others: Parsed<seq<Decoded>>)
    requires specifiers != [] && specifiers[0].length != VARIABLE_LENGTH && specifiers[0].length <= |bytes|
    requires ReadFields(specifiers[1..], bytes[specifiers[0].length..]) == Some(others)
    ensures var s := specifiers[0];
            ReadFields(specifiers, bytes)
            == Some(Parsed([Decoded(s.id, s.enterprise, bytes[..s.length])] + others.value, others.rest))
  {
  }

  lemma SpecifiersGo(fields: seq<Field>)
    requires fields != []
    ensures var specifiers, ie := SpecifiersOf(ElementsOf(fields)), fields[0].ie;
            && specifiers != [] && specifiers[0] == Specifier(ie.Id(), ie.Length(), None)
            && specifiers[1..] == SpecifiersOf(ElementsOf(fields[1..]))
            && ie.Length() < VARIABLE_LENGTH
  {
    hide Ie.Id, Ie.Length, IsSpecified;
  }

  lemma {:induction false} FieldsDecode(fields: seq<Field>, rest: seq<Byte>)
    requires AllFit(fields)
    ensures ReadFields(SpecifiersOf(ElementsOf(fields)), RecordOctets(fields) + rest)
         == Some(Parsed(DecodedOf(fields), rest))
  {
    hide FieldOctets, Ie.Id, Ie.Length, Extent;
    if fields == [] {
      assert RecordOctets(fields) + rest == rest;
    } else {
      hide ReadFields, SpecifiersOf, ElementsOf, IsSpecified;
      SpecifiersGo(fields);
      var specifiers, length := SpecifiersOf(ElementsOf(fields)), fields[0].ie.Length();
      var tail, bytes := RecordOctets(fields[1..]) + rest, RecordOctets(fields) + rest;
      FieldsDecode(fields[1..], rest);
      assert bytes == FieldOctets(fields[0]) + tail;
      assert bytes[length..] == tail && bytes[..length] == FieldOctets(fields[0]);
      FirstFieldDecodes(specifiers, bytes, Parsed(DecodedOf(fields[1..]), rest));
      assert DecodedOf(fields) == [Decoded(fields[0].ie.Id(), None, FieldOctets(fields[0]))] + DecodedOf(fields[1..]);
    }
  }

  /**
   * Self-description: a decoder that knows only the bytes of the template and of the record
   * finds every field, under its identifier and with its octets, and nothing is left over.
   */
  lemma RecordDecodesByItsTemplate(id: nat, fields: seq<Field>)
    requires FIRST_TEMPLATE_ID <= id < 0x1_0000 && 0 < |fields| < 0x1_0000 && AllFit(fields)
    ensures var t := ReadTemplate(TemplateBytes(id, |fields|, ElementsOf(fields)));
            && t.Some? && t.value.rest == [] && t.value.value.Template? && t.value.value.id == id
            && ReadFields(t.value.value.specifiers, RecordOctets(fields)) == Some(Parsed(DecodedOf(fields), []))
  {
    hide ReadTemplate, TemplateBytes, ReadFields, RecordOctets, DecodedOf;
    TemplateDecodesIff(id, |fields|, ElementsOf(fields));
    var t := ReadTemplate(TemplateBytes(id, |fields|, ElementsOf(fields)));
    assert t.value.value.specifiers == SpecifiersOf(ElementsOf(fields));
    FieldsDecode(fields, []);
    assert RecordOctets(fields) + [] == RecordOctets(fields);
  }

  /** A number is recovered modulo the size of its field, so exactly if it is in range. */
  lemma NumberIsRecoveredIff(fields: seq<Field>, i: nat)
    requires AllFit(fields) && i < |fields| && fields[i].content.Number?
    ensures Value(DecodedOf(fields)[i].octets) == fields[i].content.n % Range(fields[i].ie.Length())
    ensures Value(DecodedOf(fields)[i].octets) == fields[i].content.n
        <==> 0 <= fields[i].content.n < Range(fields[i].ie.Length())
  {
    hide Ie.Id, Ie.Length;
    ValueOfBigEndian(fields[i].content.n, fields[i].ie.Length());
    ModuloIsSelfIff(fields[i].content.n, Range(fields[i].ie.Length()));
  }

  /** Octets are recovered exactly if they are as many as the field has. */
  lemma OctetsAreRecoveredIff(fields: seq<Field>, i: nat)
    requires AllFit(fields) && i < |fields| && fields[i].content.Octets?
    ensures DecodedOf(fields)[i].octets == fields[i].content.bytes
        <==> |fields[i].content.bytes| == fields[i].ie.Length()
  {
    assert fields[i].content.bytes[..|fields[i].content.bytes|] == fields[i].content.bytes;
  }

  // ----- Template records -----

  class InformationElement {
    var informationElementID: int
    var fieldLength: int

    constructor (ie: Ie)
      ensures AsElement() == ElementOf(ie)
    {
      informationElementID, fieldLength := ie.Id(), ie.Length();
    }

    function AsElement(): Element
      reads this
    {
      Element(informationElementID, fieldLength)
    }

    method GetBytes() returns (data: array<Byte>)
      ensures fresh(data) && data[..] == ElementBytes(AsElement())
    {
      data := new Byte[4];
      ArrayCopy(BigEndian(informationElementID, 2), data, 0, 2);
      ArrayCopy(BigEndian(fieldLength, 2), data, 2, 2);
    }
  }

  class TemplateRecord {
    var templateID: int
    var fieldCount: int
    var informationElements: seq<InformationElement>

    constructor ()
      ensures informationElements == [] && Elements() == []
    {
      templateID, fieldCount, informationElements := 0, 0, [];
    }

    function Elements(): (es: seq<Element>)
      reads this, informationElements
    {
      seq(|informationElements|, i requires 0 <= i < |informationElements| reads this, informationElements =>
            informationElements[i].AsElement())
    }

    method Add(ie: Ie)
      modifies this`informationElements
      ensures |informationElements| == |old(informationElements)| + 1
      ensures informationElements[..|old(informationElements)|] == old(informationElements)
      ensures fresh(informationElements[|old(informationElements)|])
      ensures Elements() == old(Elements()) + [ElementOf(ie)]
    {
      var e := new InformationElement(ie);
      informationElements := informationElements + [e];
    }

    /** Setting the whole list also sets the count. */
    method SetInformationElements(es: seq<InformationElement>)
      modifies this`informationElements, this`fieldCount
      ensures informationElements == es && fieldCount == |Elements()|
    {
      informationElements := es;
      fieldCount := |es|;
    }

    method GetLength() returns (length: nat)
      ensures length == |TemplateBytes(templateID, fieldCount, Elements())|
    {
      length := 4 + |informationElements| * 4;
    }

    method GetBytes() returns (data: array<Byte>)
      ensures fresh(data) && data[..] == TemplateBytes(templateID, fieldCount, Elements())
    {
      hide TemplateBytes, ElementBytes;
      ghost var es := Elements();
      TemplateBytesStart(templateID, fieldCount, es);
      data := new Byte[4 + |informationElements| * 4];
      ArrayCopy(BigEndian(templateID, 2), data, 0, 2);
      ArrayCopy(BigEndian(fieldCount, 2), data, 2, 2);
      var offset := 4;
      for i := 0 to |informationElements|
        invariant offset == 4 + 4 * i
        invariant data[..offset] == TemplateBytes(templateID, fieldCount, es[..i])
        modifies data
      {
        var bytes := informationElements[i].GetBytes();
        TemplateBytesGrow(templateID, fieldCount, es, i);
        ArrayCopy(bytes[..], data, offset, 4);
        offset := offset + 4;
      }
      assert es[..|es|] == es && data[..offset] == data[..];
    }
  }

  lemma TemplateBytesStart(id: int, fieldCount: int, es: seq<Element>)
    ensures TemplateBytes(id, fieldCount, es[..0]) == BigEndian(id, 2)[..2] + BigEndian(fieldCount, 2)[..2]
  {
  }

  lemma TemplateBytesGrow(id: int, fieldCount: int, es: seq<Element>, i: nat)
    requires i < |es|
    ensures TemplateBytes(id, fieldCount, es[..i + 1]) == TemplateBytes(id, fieldCount, es[..i]) + ElementBytes(es[i])
  {
    hide BigEndian, ElementBytes, ElementsBytes;
    ElementsBytesAppend(es[..i], es[i]);
    assert es[..i + 1] == es[..i] + [es[i]];
  }
}
