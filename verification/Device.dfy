/** gusb-device.c: what a device saves to JSON and what a load reads back. */
module Device {
  import opened Basics
  import opened Json
  import Base64
  import B = BosDescriptor
  import I = Interface
  import V = DeviceEvent

  datatype Desc = Desc(
    idVendor: Word, idProduct: Word, bcdDevice: Word, bcdUsb: Word,
    manufacturer: Byte, class_: Byte, subclass: Byte, protocol: Byte, product: Byte, serial: Byte)

  datatype Tree = Tree(
    platformId: Option<string>, created: int, tags: seq<string>, desc: Desc,
    bos: seq<B.Bos>, hid: seq<Bytes>, interfaces: seq<I.Iface>, events: seq<V.Event>)

  /** g_object_new: only the creation time is set. */
  function Blank(now: int): Tree {
    Tree(None, now, [], Desc(0, 0, 0, 0, 0, 0, 0, 0, 0, 0), [], [], [], [])
  }

  // ---- saving ----

  function TextNode(text: string): Json { Str(text) }

  function BlobNode(b: Bytes): Json { Str(Base64.Encode(b)) }

  function HeadRecord(d: Tree): Members {
    map[PlatformId := StringNode(d.platformId), Created := Date(d.created), Tags := Arr(Map(d.tags, TextNode))]
  }

  function IdRecord(d: Desc, head: Members): Members {
    head[IdVendor := Int(d.idVendor)][IdProduct := Int(d.idProduct)]
        [Name.Device := Int(d.bcdDevice)][USB := Int(d.bcdUsb)]
        [Manufacturer := Int(d.manufacturer)]
  }

  function ClassRecord(d: Desc, head: Members): Members {
    head[DeviceClass := Int(d.class_)][DeviceSubClass := Int(d.subclass)]
        [DeviceProtocol := Int(d.protocol)][Product := Int(d.product)][SerialNumber := Int(d.serial)]
  }

  function DescRecord(d: Desc, head: Members): Members {
    ClassRecord(d, IdRecord(d, head))
  }

  function DeviceRecord(d: Tree): Members {
    DescRecord(d.desc, HeadRecord(d))
      [UsbBosDescriptors := Arr(Map(d.bos, B.BosNode))]
      [UsbHidDescriptors := Arr(Map(d.hid, BlobNode))]
      [UsbInterfaces := Arr(Map(d.interfaces, I.InterfaceNode))]
      [UsbEvents := Arr(Map(d.events, V.EventNode))]
  }

  function DeviceNode(d: Tree): Json { Obj(Prune(DeviceRecord(d))) }

  // ---- loading ----

  /** The creation time a load leaves; None when the text is not an ISO 8601 date. */
  function CreatedOver(was: int, m: Members): Option<int> {
    if Created !in m then Some(was)
    else match m[Created]
      case Date(stamp) => Some(stamp)
      case Str(_) => None
      case _ => Some(was)
  }

  /** The strings among the nodes; other nodes are skipped. */
  function Texts(items: seq<Json>): seq<string> {
    if items == [] then []
    else
      var rest := Texts(items[..|items| - 1]);
      var last := items[|items| - 1];
      if last.Str? then rest + [last.text] else rest
  }

  /** Empty tags are dropped. */
  function UsedTags(tags: seq<string>): seq<string> {
    if tags == [] then []
    else
      var rest := UsedTags(tags[..|tags| - 1]);
      var last := tags[|tags| - 1];
      if last != "" then rest + [last] else rest
  }

  function DescOf(m: Members): Desc {
    Desc(ToWord(GetInt(m, IdVendor)), ToWord(GetInt(m, IdProduct)),
         ToWord(GetInt(m, Name.Device)), ToWord(GetInt(m, USB)),
         ToByte(GetInt(m, Manufacturer)), ToByte(GetInt(m, DeviceClass)),
         ToByte(GetInt(m, DeviceSubClass)), ToByte(GetInt(m, DeviceProtocol)),
         ToByte(GetInt(m, Product)), ToByte(GetInt(m, SerialNumber)))
  }

  /** The five arrays are appended to what was there. */
  function ArraysOver(was: Tree, m: Members): Option<Tree> {
    var bos := Collect(GetItems(m, UsbBosDescriptors), B.LoadBos);
    var interfaces := Collect(GetItems(m, UsbInterfaces), I.LoadInterface);
    var events := Collect(GetItems(m, UsbEvents), V.LoadEvent);
    if bos.None? || interfaces.None? || events.None? then None
    else
      Some(was.(bos := was.bos + bos.value,
                hid := was.hid + Map(Texts(GetItems(m, UsbHidDescriptors)), Base64.Decode),
                interfaces := was.interfaces + interfaces.value,
                events := was.events + events.value,
                tags := was.tags + UsedTags(Texts(GetItems(m, Tags)))))
  }

  /** What loading the members into a device leaves there, unless the load fails. */
  function DeviceOver(was: Tree, m: Members): Option<Tree> {
    match CreatedOver(was.created, m)
    case None => None
    case Some(created) =>
      ArraysOver(was.(platformId := Keep(GetString(m, PlatformId), was.platformId),
                      created := created, desc := DescOf(m)), m)
  }

  // ---- what a load leaves, also when it fails ----

  function HeadInto(was: Tree, m: Members): (bool, Tree) {
    var named := was.(platformId := Keep(GetString(m, PlatformId), was.platformId));
    match CreatedOver(was.created, m)
    case None => (false, named)
    case Some(created) => (true, named.(created := created, desc := DescOf(m)))
  }

  function BosInto(was: Tree, m: Members): (bool, Tree) {
    var loaded := Prefix(GetItems(m, UsbBosDescriptors), B.LoadBos);
    (|loaded| == |GetItems(m, UsbBosDescriptors)|, was.(bos := was.bos + loaded))
  }

  function HidInto(was: Tree, m: Members): Tree {
    was.(hid := was.hid + Map(Texts(GetItems(m, UsbHidDescriptors)), Base64.Decode))
  }

  function InterfacesInto(was: Tree, m: Members): (bool, Tree) {
    var loaded := Prefix(GetItems(m, UsbInterfaces), I.LoadInterface);
    (|loaded| == |GetItems(m, UsbInterfaces)|, was.(interfaces := was.interfaces + loaded))
  }

  function EventsInto(was: Tree, m: Members): (bool, Tree) {
    var loaded := Prefix(GetItems(m, UsbEvents), V.LoadEvent);
    (|loaded| == |GetItems(m, UsbEvents)|, was.(events := was.events + loaded))
  }

  function TagsInto(was: Tree, m: Members): Tree {
    was.(tags := was.tags + UsedTags(Texts(GetItems(m, Tags))))
  }

  function ArraysInto(was: Tree, m: Members): (bool, Tree) {
    var (bosOk, t1) := BosInto(was, m);
    if !bosOk then (false, t1)
    else
      var (interfacesOk, t2) := InterfacesInto(HidInto(t1, m), m);
      if !interfacesOk then (false, t2)
      else
        var (eventsOk, t3) := EventsInto(t2, m);
        if !eventsOk then (false, t3) else (true, TagsInto(t3, m))
  }

  /** Member after member, up to the first that cannot be read. */
  function LoadInto(was: Tree, m: Members): (bool, Tree) {
    var (ok, t) := HeadInto(was, m);
    if ok then ArraysInto(t, m) else (false, t)
  }

  /** A load that goes through leaves what it should, and one that should goes through. */
  lemma {:induction false} LoadIntoIsDeviceOver(was: Tree, m: Members)
    ensures LoadInto(was, m).0 <==> DeviceOver(was, m).Some?
    ensures LoadInto(was, m).0 ==> DeviceOver(was, m) == Some(LoadInto(was, m).1)
  {
    hide Prefix, Collect, Texts, UsedTags, DescOf, CreatedOver;
    PrefixCollects(GetItems(m, UsbBosDescriptors), B.LoadBos);
    PrefixCollects(GetItems(m, UsbInterfaces), I.LoadInterface);
    PrefixCollects(GetItems(m, UsbEvents), V.LoadEvent);
  }

  /** Loading into a new object made at the time now. */
  function LoadDevice(j: Json, now: int): Option<Tree> {
    if j.Obj? then DeviceOver(Blank(now), j.members) else None
  }

  // ---- round trip ----

  /** What a save keeps: blobs and arrays without content become absent, empty tags go. */
  function Normal(d: Tree): Tree {
    d.(tags := UsedTags(d.tags), bos := Map(d.bos, B.Normal), interfaces := Map(d.interfaces, I.Normal))
  }

  lemma {:induction false} TextsOfNodes(s: seq<string>)
    ensures Texts(Map(s, TextNode)) == s
  {
    if s != [] {
      var n := |s| - 1;
      TextsOfNodes(s[..n]);
      assert Map(s, TextNode)[..n] == Map(s[..n], TextNode);
      assert s == s[..n] + [s[n]];
    }
  }

  lemma {:induction false} BlobsRoundTrip(s: seq<Bytes>)
    ensures Map(Texts(Map(s, BlobNode)), Base64.Decode) == s
  {
    hide Base64.Decode, Base64.Encode;
    var texts := Map(s, Base64.Encode);
    TextsOfNodes(texts);
    assert Map(texts, TextNode) == Map(s, BlobNode);
    forall i | 0 <= i < |s| ensures Base64.Decode(texts[i]) == s[i] {
      Base64.DecodeEncode(s[i]);
    }
  }

  ghost predicate HoldsDesc(m: Members, d: Desc) {
    && {IdVendor, IdProduct, Name.Device, USB, Manufacturer, DeviceClass,
        DeviceSubClass, DeviceProtocol, Product, SerialNumber} <= m.Keys
    && m[IdVendor] == Int(d.idVendor) && m[IdProduct] == Int(d.idProduct)
    && m[Name.Device] == Int(d.bcdDevice) && m[USB] == Int(d.bcdUsb)
    && m[Manufacturer] == Int(d.manufacturer) && m[DeviceClass] == Int(d.class_)
    && m[DeviceSubClass] == Int(d.subclass) && m[DeviceProtocol] == Int(d.protocol)
    && m[Product] == Int(d.product) && m[SerialNumber] == Int(d.serial)
  }

  lemma {:induction false} DescRoundTrip(d: Desc, m: Members)
    requires HoldsDesc(m, d)
    ensures DescOf(Prune(m)) == d
  {
    hide Prune, GetInt;
    ReadInt(m, IdVendor, d.idVendor);
    ReadInt(m, IdProduct, d.idProduct);
    ReadInt(m, Name.Device, d.bcdDevice);
    ReadInt(m, USB, d.bcdUsb);
    ReadInt(m, Manufacturer, d.manufacturer);
    ReadInt(m, DeviceClass, d.class_);
    ReadInt(m, DeviceSubClass, d.subclass);
    ReadInt(m, DeviceProtocol, d.protocol);
    ReadInt(m, Product, d.product);
    ReadInt(m, SerialNumber, d.serial);
  }

  ghost predicate HoldsHead(m: Members, d: Tree) {
    && {PlatformId, Created, Tags} <= m.Keys
    && m[PlatformId] == StringNode(d.platformId) && m[Created] == Date(d.created)
    && m[Tags] == Arr(Map(d.tags, TextNode))
  }

  lemma {:induction false} HeadRoundTrip(d: Tree, was: Tree, m: Members)
    requires HoldsHead(m, d)
    ensures GetString(Prune(m), PlatformId) == d.platformId
    ensures CreatedOver(was.created, Prune(m)) == Some(d.created)
    ensures Texts(GetItems(Prune(m), Tags)) == d.tags
  {
    hide Texts;
    ReadString(m, PlatformId, d.platformId);
    assert m[Created] == Date(d.created);
    ReadItems(m, Tags, Map(d.tags, TextNode));
    TextsOfNodes(d.tags);
  }

  ghost predicate HoldsArrays(m: Members, d: Tree) {
    && {UsbBosDescriptors, UsbHidDescriptors, UsbInterfaces, UsbEvents} <= m.Keys
    && m[UsbBosDescriptors] == Arr(Map(d.bos, B.BosNode))
    && m[UsbHidDescriptors] == Arr(Map(d.hid, BlobNode))
    && m[UsbInterfaces] == Arr(Map(d.interfaces, I.InterfaceNode))
    && m[UsbEvents] == Arr(Map(d.events, V.EventNode))
  }

  lemma {:induction false} RecordHoldsHead(d: Tree)
    ensures HoldsHead(DeviceRecord(d), d)
  {
  }

  lemma {:induction false} RecordHoldsDesc(d: Tree)
    ensures HoldsDesc(DeviceRecord(d), d.desc)
  {
  }

  lemma {:induction false} RecordHoldsArrays(d: Tree)
    ensures HoldsArrays(DeviceRecord(d), d)
  {
  }

  lemma {:induction false} ArraysRoundTrip(d: Tree, m: Members)
    requires HoldsArrays(m, d)
    ensures Collect(GetItems(Prune(m), UsbBosDescriptors), B.LoadBos) == Some(Map(d.bos, B.Normal))
    ensures Map(Texts(GetItems(Prune(m), UsbHidDescriptors)), Base64.Decode) == d.hid
    ensures Collect(GetItems(Prune(m), UsbInterfaces), I.LoadInterface) == Some(Map(d.interfaces, I.Normal))
    ensures Collect(GetItems(Prune(m), UsbEvents), V.LoadEvent) == Some(d.events)
  {
    hide Texts, Base64.Decode, B.LoadBos, B.BosNode, I.LoadInterface, I.InterfaceNode, V.LoadEvent, V.EventNode;
    ReadItems(m, UsbBosDescriptors, Map(d.bos, B.BosNode));
    ReadItems(m, UsbHidDescriptors, Map(d.hid, BlobNode));
    ReadItems(m, UsbInterfaces, Map(d.interfaces, I.InterfaceNode));
    ReadItems(m, UsbEvents, Map(d.events, V.EventNode));
    forall i | 0 <= i < |d.bos| ensures B.LoadBos(B.BosNode(d.bos[i])) == Some(B.Normal(d.bos[i])) {
      B.BosRoundTrip(d.bos[i]);
    }
    CollectNodes(d.bos, B.BosNode, B.LoadBos, B.Normal);
    BlobsRoundTrip(d.hid);
    forall i | 0 <= i < |d.interfaces|
      ensures I.LoadInterface(I.InterfaceNode(d.interfaces[i])) == Some(I.Normal(d.interfaces[i]))
    {
      I.InterfaceRoundTrip(d.interfaces[i]);
    }
    CollectNodes(d.interfaces, I.InterfaceNode, I.LoadInterface, I.Normal);
    EventsRoundTrip(d.events);
  }

  /** A saved event log is read back exactly. */
  lemma {:induction false} EventsRoundTrip(s: seq<V.Event>)
    ensures Collect(Map(s, V.EventNode), V.LoadEvent) == Some(s)
  {
    hide V.LoadEvent, V.EventNode;
    forall i | 0 <= i < |s| ensures V.LoadEvent(V.EventNode(s[i])) == Some(s[i]) {
      V.EventRoundTrip(s[i]);
    }
    var same := (e: V.Event) => e;
    CollectNodes(s, V.EventNode, V.LoadEvent, same);
    assert Map(s, same) == s;
  }

  /** Loading a saved device into a new object gives the device back, up to what a save omits. */
  lemma {:induction false} DeviceRoundTrip(d: Tree, now: int)
    ensures LoadDevice(DeviceNode(d), now) == Some(Normal(d))
  {
    hide Texts, UsedTags, Base64.Decode, Prune, DescOf, CreatedOver, DeviceRecord;
    hide HoldsHead, HoldsDesc, HoldsArrays, B.LoadBos, I.LoadInterface, V.LoadEvent;
    var m := DeviceRecord(d);
    RecordHoldsHead(d);
    RecordHoldsDesc(d);
    RecordHoldsArrays(d);
    HeadRoundTrip(d, Blank(now), m);
    DescRoundTrip(d.desc, m);
    ArraysRoundTrip(d, m);
    var loaded := LoadDevice(DeviceNode(d), now).value;
    assert loaded.bos == Normal(d).bos && loaded.interfaces == Normal(d).interfaces;
    assert loaded.hid == d.hid && loaded.events == d.events && loaded.tags == UsedTags(d.tags);
  }

  // ---- the same, told element by element ----

  /** The text of a date is taken over, any other text is refused, and what is no text is passed over. */
  lemma {:induction false} CreatedTells(was: int, m: Members)
    ensures Created !in m ==> CreatedOver(was, m) == Some(was)
    ensures Created in m && m[Created].Date? ==> CreatedOver(was, m) == Some(m[Created].stamp)
    ensures Created in m && m[Created].Str? ==> CreatedOver(was, m) == None
    ensures Created in m && !m[Created].Date? && !m[Created].Str? ==> CreatedOver(was, m) == Some(was)
  {
  }

  /** A device loads if it is an object with no bad date and each of its nested elements loads. */
  lemma {:induction false} DeviceLoads(j: Json, now: int)
    ensures LoadDevice(j, now).Some? <==>
            && j.Obj? && !(Created in j.members && j.members[Created].Str?)
            && (forall k :: 0 <= k < |GetItems(j.members, UsbBosDescriptors)| ==>
                  GetItems(j.members, UsbBosDescriptors)[k].Obj?)
            && (forall k :: 0 <= k < |GetItems(j.members, UsbInterfaces)| ==>
                  I.LoadInterface(GetItems(j.members, UsbInterfaces)[k]).Some?)
            && (forall k :: 0 <= k < |GetItems(j.members, UsbEvents)| ==> GetItems(j.members, UsbEvents)[k].Obj?)
  {
    hide I.LoadInterface, Texts, UsedTags, DescOf, B.BosOver, V.EventOver, GetItems;
  }

  /** The tags that are not empty, in order. */
  lemma {:induction false} UsedTagsAt(tags: seq<string>) returns (at: seq<nat>)
    ensures IsAt(UsedTags(tags), tags, at)
    ensures forall j: nat :: j < |tags| ==> (j in at <==> tags[j] != "")
  {
    if tags == [] {
      at := [];
    } else {
      var n := |tags| - 1;
      at := UsedTagsAt(tags[..n]);
      IsAtOneMore(UsedTags(tags[..n]), tags, at);
      hide IsAt;
      if tags[n] != "" {
        at := at + [n];
      }
    }
  }

  /** The strings among the nodes, in order. */
  lemma {:induction false} TextsAt(items: seq<Json>) returns (at: seq<nat>)
    ensures Ascending(at, |items|) && |Texts(items)| == |at|
    ensures forall i :: 0 <= i < |at| ==> items[at[i]] == Str(Texts(items)[i])
    ensures forall j: nat :: j < |items| ==> (j in at <==> items[j].Str?)
  {
    if items == [] {
      at := [];
    } else {
      var n := |items| - 1;
      at := TextsAt(items[..n]);
      if items[n].Str? {
        at := at + [n];
      }
    }
  }

  /** A capability and every extra byte it has. */
  ghost predicate BosCameBack(was: B.Bos, now: B.Bos) {
    && now.capability == was.capability
    && (was.extra.Some? && |was.extra.value| > 0 ==> now.extra == was.extra)
    && (was.extra.None? || |was.extra.value| == 0 ==> now.extra == None)
  }

  /**
   * Identity, creation time, descriptor, HID blobs and events come back as they were; capabilities, interfaces
   * and their endpoints one by one with every byte; of the tags those that are not empty.
   */
  lemma {:induction false} DeviceComesBack(d: Tree, now: int) returns (tagsAt: seq<nat>)
    ensures var j := LoadDevice(DeviceNode(d), now);
            && j.Some?
            && j.value == d.(tags := j.value.tags, bos := j.value.bos, interfaces := j.value.interfaces)
            && |j.value.bos| == |d.bos| && |j.value.interfaces| == |d.interfaces|
            && (forall k :: 0 <= k < |d.bos| ==> BosCameBack(d.bos[k], j.value.bos[k]))
            && (forall k :: 0 <= k < |d.interfaces| ==> I.CameBack(d.interfaces[k], j.value.interfaces[k]))
            && IsAt(j.value.tags, d.tags, tagsAt)
    ensures forall k: nat :: k < |d.tags| ==> (k in tagsAt <==> d.tags[k] != "")
  {
    DeviceRoundTrip(d, now);
    tagsAt := UsedTagsAt(d.tags);
    hide DeviceNode, LoadDevice, UsedTags, IsAt, I.CameBack, B.LoadBos, B.BosNode, I.LoadInterface, I.InterfaceNode;
    forall k | 0 <= k < |d.bos| ensures BosCameBack(d.bos[k], B.Normal(d.bos[k])) {
      B.BosComesBack(d.bos[k]);
      B.BosRoundTrip(d.bos[k]);
    }
    forall k | 0 <= k < |d.interfaces| ensures I.CameBack(d.interfaces[k], I.Normal(d.interfaces[k])) {
      I.InterfaceComesBack(d.interfaces[k]);
      I.InterfaceRoundTrip(d.interfaces[k]);
    }
  }

  /** The saved members of a device, under their names. */
  lemma {:induction false} DeviceHeadMembers(d: Tree)
    ensures var j := DeviceNode(d);
            && j.Obj?
            && HoldsText(j.members, PlatformId, d.platformId)
            && Created in j.members && j.members[Created] == Date(d.created)
            && HoldsArray(j.members, Tags, d.tags, (t: string) => Str(t))
            && HoldsInt(j.members, IdVendor, d.desc.idVendor)
            && HoldsInt(j.members, IdProduct, d.desc.idProduct)
  {
    hide Prune, HoldsInt, HoldsText, HoldsArray, DescRecord, DeviceRecord;
    RecordHoldsHead(d);
    RecordHoldsDesc(d);
    HeadMembers(d, DeviceRecord(d));
    PrunedInt(DeviceRecord(d), IdVendor, d.desc.idVendor);
    PrunedInt(DeviceRecord(d), IdProduct, d.desc.idProduct);
  }

  lemma {:induction false} HeadMembers(d: Tree, record: Members)
    requires HoldsHead(record, d)
    ensures var m := Prune(record);
            && HoldsText(m, PlatformId, d.platformId)
            && Created in m && m[Created] == Date(d.created)
            && HoldsArray(m, Tags, d.tags, (t: string) => Str(t))
  {
  }

  lemma {:induction false} DeviceDescMembers(d: Tree)
    ensures var m := DeviceNode(d).members;
            && HoldsInt(m, Name.Device, d.desc.bcdDevice) && HoldsInt(m, USB, d.desc.bcdUsb)
            && HoldsInt(m, Manufacturer, d.desc.manufacturer) && HoldsInt(m, Product, d.desc.product)
            && HoldsInt(m, SerialNumber, d.desc.serial) && HoldsInt(m, DeviceClass, d.desc.class_)
            && HoldsInt(m, DeviceSubClass, d.desc.subclass) && HoldsInt(m, DeviceProtocol, d.desc.protocol)
  {
    hide Prune, HoldsInt, DescRecord, DeviceRecord;
    RecordHoldsDesc(d);
    var record := DeviceRecord(d);
    PrunedInt(record, Name.Device, d.desc.bcdDevice);
    PrunedInt(record, USB, d.desc.bcdUsb);
    PrunedInt(record, Manufacturer, d.desc.manufacturer);
    PrunedInt(record, Product, d.desc.product);
    PrunedInt(record, SerialNumber, d.desc.serial);
    PrunedInt(record, DeviceClass, d.desc.class_);
    PrunedInt(record, DeviceSubClass, d.desc.subclass);
    PrunedInt(record, DeviceProtocol, d.desc.protocol);
  }

  lemma {:induction false} DeviceArrayMembers(d: Tree)
    ensures var m := DeviceNode(d).members;
            && HoldsArray(m, UsbBosDescriptors, d.bos, B.BosNode)
            && HoldsArray(m, UsbHidDescriptors, d.hid, (b: Bytes) => Str(Base64.Encode(b)))
            && HoldsArray(m, UsbInterfaces, d.interfaces, I.InterfaceNode)
            && HoldsArray(m, UsbEvents, d.events, V.EventNode)
  {
    hide DescRecord, DeviceRecord, B.BosNode, I.InterfaceNode, V.EventNode, Base64.Encode;
    RecordHoldsArrays(d);
  }
}
