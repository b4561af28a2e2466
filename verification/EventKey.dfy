/** The requests a client can make of a device and the printed key of each. */
module EventKey {
  import opened Basics
  import opened Text
  import Hex
  import Base64

  /** The length of a transfer is the length of its buffer. */
  datatype Request =
    | ControlTransfer(direction: Byte, requestType: Byte, recipient: Byte,
                      request: Byte, value: Word, idx: Word, data: Bytes)
    | BulkTransfer(endpoint: Byte, data: Bytes)
    | InterruptTransfer(endpoint: Byte, data: Bytes)
    | GetCustomIndex(classId: Byte, subclassId: Byte, protocolId: Byte)
    | GetStringDescriptor(descIndex: Byte)
    | GetStringDescriptorBytes(descIndex: Byte, langid: Word, length: nat)
    | GetConfigurationIndex
  {
    predicate Transfer() { ControlTransfer? || BulkTransfer? || InterruptTransfer? }

    /** The caller's buffer before the call; queries have none. */
    function Buffer(): Bytes { if Transfer() then data else [] }
  }

  function Field(name: string, n: nat, width: nat): string {
    name + "=0x" + Hex.Pad(n, width)
  }

  /** "Data=<base64>" and "Length=0x<hex>"; the length is cast to a 32-bit guint. */
  function Payload(data: Bytes): seq<string> {
    ["Data=" + Base64.Encode(data), LengthField(|data|)]
  }

  function LengthField(length: nat): string {
    Field("Length", length % 0x1_0000_0000, 1)
  }

  function Kind(r: Request): string {
    match r
    case ControlTransfer(_, _, _, _, _, _, _) => "ControlTransfer"
    case BulkTransfer(_, _) => "BulkTransfer"
    case InterruptTransfer(_, _) => "InterruptTransfer"
    case GetCustomIndex(_, _, _) => "GetCustomIndex"
    case GetStringDescriptor(_) => "GetStringDescriptor"
    case GetStringDescriptorBytes(_, _, _) => "GetStringDescriptorBytes"
    case GetConfigurationIndex => "GetConfigurationIndex"
  }

  function Fields(r: Request): seq<string> {
    match r
    case ControlTransfer(direction, requestType, recipient, request, value, idx, data) =>
      [Field("Direction", direction, 2), Field("RequestType", requestType, 2),
       Field("Recipient", recipient, 2), Field("Request", request, 2),
       Field("Value", value, 4), Field("Idx", idx, 4)] + Payload(data)
    case BulkTransfer(endpoint, data) => [Field("Endpoint", endpoint, 2)] + Payload(data)
    case InterruptTransfer(endpoint, data) => [Field("Endpoint", endpoint, 2)] + Payload(data)
    case GetCustomIndex(classId, subclassId, protocolId) =>
      [Field("ClassId", classId, 2), Field("SubclassId", subclassId, 2), Field("ProtocolId", protocolId, 2)]
    case GetStringDescriptor(descIndex) => [Field("DescIndex", descIndex, 2)]
    case GetStringDescriptorBytes(descIndex, langid, length) =>
      [Field("DescIndex", descIndex, 2), Field("Langid", langid, 4), LengthField(length)]
    case GetConfigurationIndex => []
  }

  /** The event id: "<kind>:<label>=<value>,...", or the bare kind when there are no parameters. */
  function Key(r: Request): string {
    if r.GetConfigurationIndex? then Kind(r) else Kind(r) + ":" + Join(Fields(r), ',')
  }

  lemma {:induction false} FieldInjective(name: string, m: nat, n: nat, width: nat)
    requires Field(name, m, width) == Field(name, n, width)
    ensures m == n
  {
    var start := |name + "=0x"|;
    assert Field(name, m, width)[start..] == Hex.Pad(m, width);
    assert Field(name, n, width)[start..] == Hex.Pad(n, width);
    Hex.PadInjective(m, n, width);
  }

  lemma {:induction false} FieldFree(name: string, n: nat, width: nat)
    requires ',' !in name
    ensures ',' !in Field(name, n, width)
  {
    hide Hex.Pad, Hex.Value;
    Hex.ValueOfPad(n, width);
  }

  lemma {:induction false} PayloadInjective(a: Bytes, b: Bytes)
    requires "Data=" + Base64.Encode(a) == "Data=" + Base64.Encode(b)
    ensures a == b
  {
    assert ("Data=" + Base64.Encode(a))[5..] == Base64.Encode(a);
    assert ("Data=" + Base64.Encode(b))[5..] == Base64.Encode(b);
    Base64.EncodeInjective(a, b);
  }

  lemma {:induction false} PayloadFree(data: Bytes)
    ensures Free(Payload(data), ',')
  {
    Base64.EncodeAlphabet(data);
    assert ',' !in Base64.Encode(data);
    assert ',' !in "Data=";
    assert ',' !in "Length";
    FieldFree("Length", |data| % 0x1_0000_0000, 1);
  }

  lemma {:induction false} FieldsFree(r: Request)
    ensures Free(Fields(r), ',')
  {
    hide Field, Base64.Encode;
    match r
    case ControlTransfer(direction, requestType, recipient, request, value, idx, data) =>
      FieldFree("Direction", direction, 2);
      FieldFree("RequestType", requestType, 2);
      FieldFree("Recipient", recipient, 2);
      FieldFree("Request", request, 2);
      FieldFree("Value", value, 4);
      FieldFree("Idx", idx, 4);
      PayloadFree(data);
    case BulkTransfer(endpoint, data) =>
      FieldFree("Endpoint", endpoint, 2);
      PayloadFree(data);
    case InterruptTransfer(endpoint, data) =>
      FieldFree("Endpoint", endpoint, 2);
      PayloadFree(data);
    case GetCustomIndex(classId, subclassId, protocolId) =>
      FieldFree("ClassId", classId, 2);
      FieldFree("SubclassId", subclassId, 2);
      FieldFree("ProtocolId", protocolId, 2);
    case GetStringDescriptor(descIndex) =>
      FieldFree("DescIndex", descIndex, 2);
    case GetStringDescriptorBytes(descIndex, langid, length) =>
      FieldFree("DescIndex", descIndex, 2);
      FieldFree("Langid", langid, 4);
      FieldFree("Length", length % 0x1_0000_0000, 1);
    case GetConfigurationIndex =>
  }

  /** The names of the kinds are told apart by their lengths, and none holds a colon. */
  lemma {:induction false} KindInjective(a: Request, b: Request)
    ensures ':' !in Kind(a)
    ensures Kind(a) == Kind(b) ==>
              (a.ControlTransfer? <==> b.ControlTransfer?) && (a.BulkTransfer? <==> b.BulkTransfer?) &&
              (a.InterruptTransfer? <==> b.InterruptTransfer?) && (a.GetCustomIndex? <==> b.GetCustomIndex?) &&
              (a.GetStringDescriptor? <==> b.GetStringDescriptor?) &&
              (a.GetStringDescriptorBytes? <==> b.GetStringDescriptorBytes?)
  {
  }

  /**
   * What a key records of a request: everything, except that the length of a raw string
   * request is cut to 32 bits.
   */
  predicate SameKey(a: Request, b: Request) {
    if a.GetStringDescriptorBytes? && b.GetStringDescriptorBytes? then
      a.descIndex == b.descIndex && a.langid == b.langid &&
      a.length % 0x1_0000_0000 == b.length % 0x1_0000_0000
    else
      a == b
  }

  lemma {:induction false} FieldsInjective(a: Request, b: Request)
    requires Kind(a) == Kind(b) && Fields(a) == Fields(b)
    ensures SameKey(a, b)
  {
    KindInjective(a, b);
    var f, g := Fields(a), Fields(b);
    match a
    case ControlTransfer(direction, requestType, recipient, request, value, idx, data) =>
      assert f[0] == g[0] && f[1] == g[1] && f[2] == g[2] && f[3] == g[3];
      assert f[4] == g[4] && f[5] == g[5] && f[6] == g[6];
      FieldInjective("Direction", direction, b.direction, 2);
      FieldInjective("RequestType", requestType, b.requestType, 2);
      FieldInjective("Recipient", recipient, b.recipient, 2);
      FieldInjective("Request", request, b.request, 2);
      FieldInjective("Value", value, b.value, 4);
      FieldInjective("Idx", idx, b.idx, 4);
      PayloadInjective(data, b.data);
    case BulkTransfer(endpoint, data) =>
      assert f[0] == g[0] && f[1] == g[1];
      FieldInjective("Endpoint", endpoint, b.endpoint, 2);
      PayloadInjective(data, b.data);
    case InterruptTransfer(endpoint, data) =>
      assert f[0] == g[0] && f[1] == g[1];
      FieldInjective("Endpoint", endpoint, b.endpoint, 2);
      PayloadInjective(data, b.data);
    case GetCustomIndex(classId, subclassId, protocolId) =>
      assert f[0] == g[0] && f[1] == g[1] && f[2] == g[2];
      FieldInjective("ClassId", classId, b.classId, 2);
      FieldInjective("SubclassId", subclassId, b.subclassId, 2);
      FieldInjective("ProtocolId", protocolId, b.protocolId, 2);
    case GetStringDescriptor(descIndex) =>
      assert f[0] == g[0];
      FieldInjective("DescIndex", descIndex, b.descIndex, 2);
    case GetStringDescriptorBytes(descIndex, langid, length) =>
      assert f[0] == g[0] && f[1] == g[1] && f[2] == g[2];
      FieldInjective("DescIndex", descIndex, b.descIndex, 2);
      FieldInjective("Langid", langid, b.langid, 4);
      FieldInjective("Length", length % 0x1_0000_0000, b.length % 0x1_0000_0000, 1);
    case GetConfigurationIndex =>
  }

  lemma {:induction false} KeyHasColon(r: Request)
    ensures ':' in Key(r) <==> !r.GetConfigurationIndex?
  {
    if !r.GetConfigurationIndex? {
      assert Key(r)[|Kind(r)|] == ':';
    } else {
      KindInjective(r, r);
    }
  }

  /**
   * Two requests print the same key exactly when they are the same request, up to the cast of
   * a raw string length to 32 bits.
   */
  lemma {:induction false} KeyInjective(a: Request, b: Request)
    ensures Key(a) == Key(b) <==> SameKey(a, b)
  {
    if Key(a) == Key(b) {
      KeyHasColon(a);
      KeyHasColon(b);
      if !a.GetConfigurationIndex? {
        KindInjective(a, b);
        KindInjective(b, a);
        assert Key(a) == Kind(a) + [':'] + Join(Fields(a), ',');
        assert Key(b) == Kind(b) + [':'] + Join(Fields(b), ',');
        PrefixInjective(Kind(a), Kind(b), Join(Fields(a), ','), Join(Fields(b), ','), ':');
        FieldsFree(a);
        FieldsFree(b);
        JoinInjective(Fields(a), Fields(b), ',');
        FieldsInjective(a, b);
      }
    }
  }

  // ---- the texts themselves ----

  lemma {:induction false} JoinOne(a: string)
    ensures Join([a], ',') == a
  {
  }

  lemma {:induction false} JoinFirst(a: string, rest: seq<string>)
    requires |rest| > 0
    ensures Join([a] + rest, ',') == a + "," + Join(rest, ',')
  {
    assert ([a] + rest)[1..] == rest;
  }

  lemma {:induction false} Join3(a: string, b: string, c: string)
    ensures Join([a, b, c], ',') == a + "," + (b + "," + c)
  {
    JoinOne(c);
    JoinFirst(b, [c]);
    JoinFirst(a, [b] + [c]);
    assert [a] + ([b] + [c]) == [a, b, c];
  }

  lemma {:induction false} FieldText(name: string, n: nat, width: nat)
    ensures Field(name, n, width) == name + "=0x" + Hex.Pad(n, width)
  {
  }

  lemma {:induction false} CustomIndexText(a: Byte, b: Byte, c: Byte)
    ensures Key(GetCustomIndex(a, b, c)) ==
            "GetCustomIndex" + ":" +
            (Field("ClassId", a, 2) + "," + (Field("SubclassId", b, 2) + "," + Field("ProtocolId", c, 2)))
  {
    hide Field, Join;
    Join3(Field("ClassId", a, 2), Field("SubclassId", b, 2), Field("ProtocolId", c, 2));
  }

  lemma {:induction false} StringTexts(a: Byte, langid: Word, length: nat)
    ensures Key(GetConfigurationIndex) == "GetConfigurationIndex"
    ensures Key(GetStringDescriptor(a)) == "GetStringDescriptor" + ":" + Field("DescIndex", a, 2)
    ensures Key(GetStringDescriptorBytes(a, langid, length)) ==
            "GetStringDescriptorBytes" + ":" +
            (Field("DescIndex", a, 2) + "," +
             (Field("Langid", langid, 4) + "," + Field("Length", length % 0x1_0000_0000, 1)))
  {
    hide Field, Join;
    JoinOne(Field("DescIndex", a, 2));
    Join3(Field("DescIndex", a, 2), Field("Langid", langid, 4), Field("Length", length % 0x1_0000_0000, 1));
  }

  lemma {:induction false} BulkTexts(endpoint: Byte, data: Bytes)
    ensures var fields := Field("Endpoint", endpoint, 2) + "," +
                          (("Data=" + Base64.Encode(data)) + "," + Field("Length", |data| % 0x1_0000_0000, 1));
            && Key(BulkTransfer(endpoint, data)) == "BulkTransfer" + ":" + fields
            && Key(InterruptTransfer(endpoint, data)) == "InterruptTransfer" + ":" + fields
  {
    hide Field, Join, Base64.Encode;
    var e, d, l := Field("Endpoint", endpoint, 2), "Data=" + Base64.Encode(data), LengthField(|data|);
    assert [e] + [d, l] == [e, d, l];
    Join3(e, d, l);
  }

  lemma {:induction false} ControlText(
    direction: Byte, requestType: Byte, recipient: Byte, request: Byte, value: Word, idx: Word, data: Bytes)
    ensures Key(ControlTransfer(direction, requestType, recipient, request, value, idx, data)) ==
            "ControlTransfer" + ":" +
            (Field("Direction", direction, 2) + "," + (Field("RequestType", requestType, 2) + "," +
             (Field("Recipient", recipient, 2) + "," + (Field("Request", request, 2) + "," +
              (Field("Value", value, 4) + "," + (Field("Idx", idx, 4) + "," +
               (("Data=" + Base64.Encode(data)) + "," + Field("Length", |data| % 0x1_0000_0000, 1))))))))
  {
    hide Field, Join, Base64.Encode;
    var a, b, c := Field("Direction", direction, 2), Field("RequestType", requestType, 2), Field("Recipient", recipient, 2);
    var d, e, f := Field("Request", request, 2), Field("Value", value, 4), Field("Idx", idx, 4);
    var g, h := "Data=" + Base64.Encode(data), LengthField(|data|);
    assert [a, b, c, d, e, f] + [g, h] == [a] + ([b] + ([c] + ([d] + ([e] + [f, g, h]))));
    JoinFirst(a, [b] + ([c] + ([d] + ([e] + [f, g, h]))));
    JoinFirst(b, [c] + ([d] + ([e] + [f, g, h])));
    JoinFirst(c, [d] + ([e] + [f, g, h]));
    JoinFirst(d, [e] + [f, g, h]);
    JoinFirst(e, [f, g, h]);
    Join3(f, g, h);
  }
}
