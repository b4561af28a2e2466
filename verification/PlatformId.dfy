/** gusb-device.c: the text that names a device by its place in the tree of hubs. */
module PlatformId {
  import opened Basics
  import opened Text
  import Hex

  /** A libusb_device: the port it is plugged into and the hub that has it; a root hub has no parent. */
  datatype Topology = Topology(port: Byte, parent: Option<Topology>)

  /** The ports from the root down to the device. */
  function Path(dev: Topology): (path: seq<Byte>)
    ensures |path| > 0
  {
    (match dev.parent case Some(hub) => Path(hub) case None => []) + [dev.port]
  }

  function Field(b: Byte): string { Hex.Pad(b, 2) }

  function FieldsOf(path: seq<Byte>): (r: seq<string>)
    ensures |r| == |path| && forall i :: 0 <= i < |path| ==> r[i] == Field(path[i])
  {
    seq(|path|, i requires 0 <= i < |path| => Field(path[i]))
  }

  /** What g_usb_device_build_parent_port_number appends: the hubs' ports first, each followed by a colon. */
  function PortsText(dev: Topology): string {
    (match dev.parent case Some(hub) => PortsText(hub) case None => "") + Field(dev.port) + ":"
  }

  /** The colon after the last port is cut off. */
  function Print(bus: Byte, dev: Topology): string {
    var text := "usb:" + Field(bus) + ":" + PortsText(dev);
    text[..|text| - 1]
  }

  class GString {
    var text: string

    constructor (text: string)
      ensures this.text == text
    {
      this.text := text;
    }

    /** g_string_append_printf (str, "%02x:", b) */
    method AppendField(b: Byte)
      modifies this
      ensures text == old(text) + Field(b) + ":"
    {
      text := text + Field(b) + ":";
    }

    method Truncate(length: nat)
      requires length <= |text|
      modifies this
      ensures text == old(text)[..length]
    {
      text := text[..length];
    }
  }

  method BuildParentPortNumber(str: GString, dev: Topology)
    modifies str
    ensures str.text == old(str.text) + PortsText(dev)
    decreases dev
  {
    if dev.parent.Some? {
      BuildParentPortNumber(str, dev.parent.value);
    }
    str.AppendField(dev.port);
  }

  method BuildPlatformId(bus: Byte, dev: Topology) returns (platformId: string)
    ensures platformId == Print(bus, dev)
  {
    var str := new GString("usb:");
    str.AppendField(bus);
    BuildParentPortNumber(str, dev);
    str.Truncate(|str.text| - 1);
    return str.text;
  }

  // ---- reading it back ----

  predicate IsField(s: string) { |s| == 2 && Hex.AllDigits(s) }

  function ByteOf(s: string): Byte
    requires IsField(s)
  {
    Hex.ValueBound(s);
    assert Hex.Pow16(2) == 16 * Hex.Pow16(1) == 256;
    Hex.Value(s)
  }

  function BytesOf(fields: seq<string>): (path: seq<Byte>)
    requires forall i :: 0 <= i < |fields| ==> IsField(fields[i])
    ensures |path| == |fields| && forall i :: 0 <= i < |fields| ==> path[i] == ByteOf(fields[i])
  {
    seq(|fields|, i requires 0 <= i < |fields| && IsField(fields[i]) => ByteOf(fields[i]))
  }

  function ParsePieces(pieces: seq<string>): Option<(Byte, seq<Byte>)> {
    if |pieces| >= 3 && pieces[0] == "usb" && forall i :: 0 <= i < |pieces| - 1 ==> IsField(pieces[1..][i]) then
      var bytes := BytesOf(pieces[1..]);
      Some((bytes[0], bytes[1..]))
    else None
  }

  /** The bus and the ports, if the text is "usb" and two or more numbers of two digits. */
  function Parse(text: string): Option<(Byte, seq<Byte>)> { ParsePieces(Split(text, ':')) }

  function Pieces(bus: Byte, path: seq<Byte>): (r: seq<string>)
    ensures |r| == |path| + 2
  {
    ["usb", Field(bus)] + FieldsOf(path)
  }

  lemma {:induction false} FieldIsField(b: Byte)
    ensures IsField(Field(b)) && ByteOf(Field(b)) == b && ':' !in Field(b)
  {
    assert Hex.Pow16(2) == 16 * Hex.Pow16(1) == 256;
    Hex.PadLength(b, 2);
    Hex.ValueOfPad(b, 2);
  }

  lemma {:induction false} PiecesFree(bus: Byte, path: seq<Byte>)
    ensures Free(Pieces(bus, path), ':')
  {
    FieldIsField(bus);
    forall i | 0 <= i < |path| ensures ':' !in FieldsOf(path)[i] {
      FieldIsField(path[i]);
    }
  }

  lemma {:induction false} JoinOneMore(pieces: seq<string>, last: string, c: char)
    requires |pieces| > 0
    ensures Join(pieces + [last], c) == Join(pieces, c) + [c] + last
  {
    if |pieces| == 1 {
      assert (pieces + [last])[1..] == [last];
    } else {
      assert (pieces + [last])[1..] == pieces[1..] + [last];
      JoinOneMore(pieces[1..], last, c);
      assert pieces[0] + [c] + (Join(pieces[1..], c) + [c] + last) ==
             (pieces[0] + [c] + Join(pieces[1..], c)) + [c] + last;
    }
  }

  lemma {:induction false} PrintJoins(bus: Byte, dev: Topology)
    ensures Print(bus, dev) == Join(Pieces(bus, Path(dev)), ':')
    ensures "usb:" + Field(bus) + ":" + PortsText(dev) == Print(bus, dev) + ":"
    decreases dev
  {
    hide Field;
    var start := "usb:" + Field(bus) + ":";
    match dev.parent
    case None =>
      assert Pieces(bus, Path(dev)) == ["usb", Field(bus)] + [Field(dev.port)];
      JoinOneMore(["usb", Field(bus)], Field(dev.port), ':');
      JoinOneMore(["usb"], Field(bus), ':');
      assert start + PortsText(dev) == (start + Field(dev.port)) + ":";
      assert ["usb"] + [Field(bus)] == ["usb", Field(bus)];
      assert Join(["usb", Field(bus)], ':') + ":" == start;
    case Some(hub) =>
      PrintJoins(bus, hub);
      assert Pieces(bus, Path(dev)) == Pieces(bus, Path(hub)) + [Field(dev.port)];
      JoinOneMore(Pieces(bus, Path(hub)), Field(dev.port), ':');
      assert start + PortsText(dev) == ((start + PortsText(hub)) + Field(dev.port)) + ":";
  }

  lemma {:induction false} PiecesParse(bus: Byte, path: seq<Byte>)
    requires |path| > 0
    ensures ParsePieces(Pieces(bus, path)) == Some((bus, path))
  {
    hide Field, IsField, ByteOf;
    var bytes := [bus] + path;
    var fields := Pieces(bus, path)[1..];
    forall i | 0 <= i < |bytes| ensures IsField(fields[i]) && ByteOf(fields[i]) == bytes[i] {
      FieldIsField(bytes[i]);
    }
    assert BytesOf(fields) == bytes;
  }

  /** The printed text gives the bus and the path back. */
  lemma {:induction false} PrintParses(bus: Byte, dev: Topology)
    ensures Parse(Print(bus, dev)) == Some((bus, Path(dev)))
  {
    hide Print, Join, Split, Pieces, ParsePieces, Free;
    PrintJoins(bus, dev);
    PiecesFree(bus, Path(dev));
    SplitJoin(Pieces(bus, Path(dev)), ':');
    PiecesParse(bus, Path(dev));
  }

  lemma {:induction false} PathInjective(a: Topology, b: Topology)
    requires Path(a) == Path(b)
    ensures a == b
    decreases a
  {
    var p, q := Path(a), Path(b);
    assert p[|p| - 1] == a.port && q[|q| - 1] == b.port;
    assert p[..|p| - 1] == match a.parent case Some(hub) => Path(hub) case None => [];
    assert q[..|q| - 1] == match b.parent case Some(hub) => Path(hub) case None => [];
    if a.parent.Some? && b.parent.Some? {
      PathInjective(a.parent.value, b.parent.value);
    }
  }

  /** Devices at different places have different ids. */
  lemma {:induction false} PrintInjective(bus: Byte, dev: Topology, bus': Byte, dev': Topology)
    ensures Print(bus, dev) == Print(bus', dev') <==> bus == bus' && dev == dev'
  {
    if Print(bus, dev) == Print(bus', dev') {
      hide Print, Parse;
      PrintParses(bus, dev);
      PrintParses(bus', dev');
      PathInjective(dev, dev');
    }
  }

  /** A device's id is that of its hub, a colon and one port. */
  lemma {:induction false} ChildId(bus: Byte, port: Byte, hub: Topology)
    ensures Print(bus, Topology(port, Some(hub))) == Print(bus, hub) + ":" + Field(port)
  {
    hide Field;
    PrintJoins(bus, hub);
    var start := "usb:" + Field(bus) + ":";
    var dev := Topology(port, Some(hub));
    assert start + PortsText(dev) == (Print(bus, hub) + ":" + Field(port)) + ":";
  }

  function Place(path: seq<Byte>): (dev: Topology)
    requires |path| > 0
    ensures Path(dev) == path
  {
    var n := |path| - 1;
    Topology(path[n], if n == 0 then None else Some(Place(path[..n])))
  }

  lemma {:induction false} ParsedPieces(pieces: seq<string>)
    requires ParsePieces(pieces).Some?
    ensures var (bus, path) := ParsePieces(pieces).value; |path| > 0 && Pieces(bus, path) == pieces
  {
    hide Field, IsField, ByteOf;
    var fields := pieces[1..];
    var bytes := BytesOf(fields);
    forall i | 0 <= i < |fields| ensures FieldsOf(bytes)[i] == fields[i] {
      FieldOfByte(fields[i]);
    }
    hide FieldsOf, BytesOf;
    assert FieldsOf(bytes) == fields;
    FieldsFirst(bytes);
    assert pieces == ["usb"] + fields;
    assert Pieces(bytes[0], bytes[1..]) == ["usb"] + FieldsOf(bytes);
  }

  lemma {:induction false} FieldsFirst(path: seq<Byte>)
    requires path != []
    ensures FieldsOf(path) == [Field(path[0])] + FieldsOf(path[1..])
  {
    hide Field;
  }

  lemma {:induction false} FieldOfByte(s: string)
    requires IsField(s)
    ensures Field(ByteOf(s)) == s
  {
    Hex.PadOfValue(s);
  }

  /** Any text that parses is the id of the device at that place. */
  lemma {:induction false} ParsePrints(text: string)
    requires Parse(text).Some?
    ensures var (bus, path) := Parse(text).value;
            |path| > 0 && Print(bus, Place(path)) == text
  {
    hide Print, Split, Join, Pieces, ParsePieces;
    var (bus, path) := Parse(text).value;
    ParsedPieces(Split(text, ':'));
    PrintJoins(bus, Place(path));
    JoinSplit(text, ':');
  }

  lemma {:induction false} JoinSplit(s: string, c: char)
    ensures Join(Split(s, c), c) == s
  {
    if s != [] {
      JoinSplit(s[1..], c);
      var rest := Split(s[1..], c);
      assert s == [s[0]] + s[1..];
      if s[0] == c {
        assert ([""] + rest)[1..] == rest;
      } else {
        assert ([[s[0]] + rest[0]] + rest[1..])[1..] == rest[1..];
      }
    }
  }
}
