/** gusb-context.c: the index of vendor and product names read from the usb.ids file. */
module UsbIds {
  import opened Basics
  import Hex
  import Text

  type Index = map<string, string>

  // ---- g_ascii_strtoull in base 16, on the few characters it is given here ----

  predicate IsSpace(c: char) { c == ' ' || '\t' <= c <= '\r' }

  function DigitOf(c: char): Option<nat> {
    if '0' <= c <= '9' then Some(c as int - '0' as int)
    else if 'a' <= c <= 'f' then Some(c as int - 'a' as int + 10)
    else if 'A' <= c <= 'F' then Some(c as int - 'A' as int + 10)
    else None
  }

  function SkipSpace(s: string): string {
    if s != "" && IsSpace(s[0]) then SkipSpace(s[1..]) else s
  }

  /** The digits up to the first character that is none, after a value read so far. */
  function Digits(s: string, read: nat): nat
    decreases s
  {
    if s == "" then read
    else match DigitOf(s[0]) case Some(d) => Digits(s[1..], 16 * read + d) case None => read
  }

  function SkipPrefix(s: string): string {
    if |s| >= 2 && s[0] == '0' && (s[1] == 'x' || s[1] == 'X') then s[2..] else s
  }

  /** The value as it arrives in a guint16. */
  function Strtoull(s: string): Word {
    var t := SkipSpace(s);
    if t != "" && t[0] == '-' then ToWord(0 - Digits(SkipPrefix(t[1..]), 0))
    else if t != "" && t[0] == '+' then ToWord(Digits(SkipPrefix(t[1..]), 0))
    else ToWord(Digits(SkipPrefix(t), 0))
  }

  // ---- the parser ----

  function VendorKey(vid: Word): string { Hex.Pad(vid, 4) }

  function ProductKey(vid: Word, pid: Word): string { Hex.Pad(vid, 4) + ":" + Hex.Pad(pid, 4) }

  predicate StartsClasses(line: string) { "C 00" <= line }

  datatype Parse = Parse(index: Index, vid: Word, stopped: bool)

  function ParseLine(p: Parse, line: string): Parse {
    if line == "" || line[0] == '#' then p
    else if StartsClasses(line) then p.(stopped := true)
    else if line[0] != '\t' then
      if |line| < 7 then p
      else
        var vid := Strtoull(line[..4]);
        if vid == 0 then p.(vid := 0, stopped := true)
        else p.(vid := vid, index := p.index[line[..4] := line[6..]])
    else if p.vid == 0 then p.(stopped := true)
    else if |line| < 8 then p
    else p.(index := p.index[ProductKey(p.vid, Strtoull(line[1..5])) := line[7..]])
  }

  function ParseLines(p: Parse, lines: seq<string>): Parse
    decreases lines
  {
    if lines == [] || p.stopped then p else ParseLines(ParseLine(p, lines[0]), lines[1..])
  }

  function IndexOf(lines: seq<string>): Index { ParseLines(Parse(map[], 0, false), lines).index }

  /** Digits of either case; anything else ends the number. */
  lemma {:induction false} DigitTells(c: char)
    ensures '0' <= c <= '9' ==> DigitOf(c) == Some(c as int - 48)
    ensures 'a' <= c <= 'f' ==> DigitOf(c) == Some(c as int - 87)
    ensures 'A' <= c <= 'F' ==> DigitOf(c) == Some(c as int - 55)
    ensures !('0' <= c <= '9') && !('a' <= c <= 'f') && !('A' <= c <= 'F') ==> DigitOf(c) == None
  {
  }

  /** What a line that is neither blank nor a comment nor the start of the classes does. */
  lemma {:induction false} ParseEntry(p: Parse, line: string)
    requires line != "" && line[0] != '#' && !StartsClasses(line)
    ensures line[0] != '\t' && |line| >= 7 && Strtoull(line[..4]) != 0 ==>
              ParseLine(p, line) == p.(vid := Strtoull(line[..4]), index := p.index[line[..4] := line[6..]])
    ensures line[0] == '\t' && |line| >= 8 && p.vid != 0 ==>
              ParseLine(p, line) == p.(index := p.index[ProductKey(p.vid, Strtoull(line[1..5])) := line[7..]])
    ensures line[0] != '\t' && |line| < 7 ==> ParseLine(p, line) == p
    ensures line[0] == '\t' && |line| < 8 && p.vid != 0 ==> ParseLine(p, line) == p
    ensures line[0] != '\t' && |line| >= 7 && Strtoull(line[..4]) == 0 ==>
              ParseLine(p, line) == p.(vid := 0, stopped := true)
    ensures line[0] == '\t' && p.vid == 0 ==> ParseLine(p, line) == p.(stopped := true)
  {
    hide Strtoull, ProductKey;
  }

  lemma {:induction false} ParseOther(p: Parse, line: string)
    ensures line == "" || line[0] == '#' ==> ParseLine(p, line) == p
    ensures StartsClasses(line) ==> ParseLine(p, line) == p.(stopped := true)
  {
  }

  /** One turn of the loop. */
  lemma {:induction false} ParseNext(p: Parse, lines: seq<string>, i: nat)
    requires !p.stopped && i < |lines|
    ensures ParseLines(p, lines[i..]) == ParseLines(ParseLine(p, lines[i]), lines[i + 1..])
    ensures ParseLine(p, lines[i]).stopped ==> ParseLines(p, lines[i..]) == ParseLine(p, lines[i])
  {
    assert lines[i..][1..] == lines[i + 1..];
  }

  /** g_strsplit yields no line of an empty file; the one blank line of Split is skipped. */
  function IndexOfFile(text: string): Index { IndexOf(Text.Split(text, '\n')) }

  /** The part of GUsbContext that holds dict_usb_ids. */
  class UsbIdsTable {
    var dict: Index

    constructor ()
      ensures dict == map[]
    {
      dict := map[];
    }

    /** file is the text of the file, if it can be read; a table that holds anything is kept. */
    method LoadUsbIds(file: Option<string>) returns (ok: bool)
      modifies this
      ensures ok <==> old(dict) != map[] || file.Some?
      ensures dict == if old(dict) == map[] && file.Some? then IndexOfFile(file.value) else old(dict)
    {
      if |dict| > 0 {
        return true;
      }
      if file.None? {
        return false;
      }
      ReadLines(Text.Split(file.value, '\n'));
      return true;
    }

    /** The loop over the lines. */
    method ReadLines(lines: seq<string>)
      modifies this
      ensures dict == ParseLines(Parse(old(dict), 0, false), lines).index
    {
      assert forall p :: ParseLines(p, []) == p;
      hide Strtoull, ProductKey, StartsClasses, ParseLines, ParseLine;
      var vid: Word := 0;
      var i := 0;
      assert lines[0..] == lines;
      while i < |lines|
        invariant i <= |lines|
        invariant ParseLines(Parse(dict, vid, false), lines[i..]).index ==
                  ParseLines(Parse(old(dict), 0, false), lines).index
      {
        var line := lines[i];
        ParseNext(Parse(dict, vid, false), lines, i);
        ParseOther(Parse(dict, vid, false), line);
        i := i + 1;
        if line == "" || line[0] == '#' {
          continue;
        }
        if StartsClasses(line) {
          break;
        }
        ParseEntry(Parse(dict, vid, false), line);
        if line[0] != '\t' {
          if |line| < 7 {
            continue;
          }
          vid := Strtoull(line[..4]);
          if vid == 0 {
            break;
          }
          dict := dict[line[..4] := line[6..]];
        } else {
          if vid == 0 {
            break;
          }
          if |line| < 8 {
            continue;
          }
          dict := dict[ProductKey(vid, Strtoull(line[1..5])) := line[7..]];
        }
      }
    }

    method LookupVendor(vid: Word, file: Option<string>) returns (name: Option<string>)
      modifies this
      ensures dict == if old(dict) == map[] && file.Some? then IndexOfFile(file.value) else old(dict)
      ensures name == Lookup(dict, VendorKey(vid))
    {
      var ok := LoadUsbIds(file);
      if !ok || VendorKey(vid) !in dict {
        return None;
      }
      return Some(dict[VendorKey(vid)]);
    }

    method LookupProduct(vid: Word, pid: Word, file: Option<string>) returns (name: Option<string>)
      modifies this
      ensures dict == if old(dict) == map[] && file.Some? then IndexOfFile(file.value) else old(dict)
      ensures name == Lookup(dict, ProductKey(vid, pid))
    {
      var ok := LoadUsbIds(file);
      if !ok || ProductKey(vid, pid) !in dict {
        return None;
      }
      return Some(dict[ProductKey(vid, pid)]);
    }
  }

  function Lookup(index: Index, key: string): Option<string> {
    if key in index then Some(index[key]) else None
  }

  // ---- the table a file is written from ----

  datatype Row =
    | Comment(text: string)
    | Blank
    | Vendor(vid: Word, name: string)
    | Product(pid: Word, name: string)

  function Render(row: Row): string {
    match row
    case Comment(text) => "#" + text
    case Blank => ""
    case Vendor(vid, name) => Hex.Pad(vid, 4) + "  " + name
    case Product(pid, name) => "\t" + Hex.Pad(pid, 4) + "  " + name
  }

  function RenderAll(rows: seq<Row>): (lines: seq<string>)
    ensures |lines| == |rows| && forall i :: 0 <= i < |rows| ==> lines[i] == Render(rows[i])
  {
    seq(|rows|, i requires 0 <= i < |rows| => Render(rows[i]))
  }

  /** The vendor whose products follow; 0 before the first. */
  function CurrentVendor(rows: seq<Row>): Word {
    if rows == [] then 0
    else match rows[|rows| - 1]
      case Vendor(vid, _) => vid
      case _ => CurrentVendor(rows[..|rows| - 1])
  }

  /** Names are not empty, vendor ids not zero, and every product comes after some vendor. */
  predicate WellFormed(rows: seq<Row>) {
    forall i :: 0 <= i < |rows| ==> GoodRow(rows, i)
  }

  predicate GoodRow(rows: seq<Row>, i: nat)
    requires i < |rows|
  {
    match rows[i]
    case Vendor(vid, name) => vid != 0 && name != ""
    case Product(_, name) => name != "" && CurrentVendor(rows[..i]) != 0
    case _ => true
  }

  /** The name the table gives last to a vendor. */
  function VendorName(rows: seq<Row>, vid: Word): Option<string> {
    if rows == [] then None
    else
      var n := |rows| - 1;
      if rows[n].Vendor? && rows[n].vid == vid then Some(rows[n].name) else VendorName(rows[..n], vid)
  }

  /** The name the table gives last to a product of a vendor. */
  function ProductName(rows: seq<Row>, vid: Word, pid: Word): Option<string> {
    if rows == [] then None
    else
      var n := |rows| - 1;
      if rows[n].Product? && rows[n].pid == pid && CurrentVendor(rows[..n]) == vid then Some(rows[n].name)
      else ProductName(rows[..n], vid, pid)
  }

  // ---- reading a printed number ----

  lemma {:induction false} DigitsOneMore(s: string, c: char, read: nat)
    requires Hex.AllDigits(s) && Hex.IsDigit(c)
    ensures Digits(s + [c], read) == 16 * Digits(s, read) + Hex.DigitValue(c)
    decreases s
  {
    if s == "" {
      assert (s + [c])[1..] == "";
    } else {
      assert (s + [c])[1..] == s[1..] + [c];
      DigitsOneMore(s[1..], c, 16 * read + Hex.DigitValue(s[0]));
    }
  }

  lemma {:induction false} DigitsOfHex(s: string)
    requires Hex.AllDigits(s)
    ensures Digits(s, 0) == Hex.Value(s)
  {
    if s != "" {
      var n := |s| - 1;
      DigitsOfHex(s[..n]);
      DigitsOneMore(s[..n], s[n], 0);
      assert s == s[..n] + [s[n]];
    }
  }

  lemma {:induction false} Pad4(v: Word)
    ensures Hex.AllDigits(Hex.Pad(v, 4)) && |Hex.Pad(v, 4)| == 4
    ensures Strtoull(Hex.Pad(v, 4)) == v
  {
    assert Hex.Pow16(4) == 0x1_0000 by {
      assert Hex.Pow16(1) == 16 && Hex.Pow16(2) == 0x100 && Hex.Pow16(3) == 0x1000;
    }
    Hex.PadLength(v, 4);
    Hex.ValueOfPad(v, 4);
    var s := Hex.Pad(v, 4);
    hide Hex.Pad, Hex.Value;
    assert Hex.IsDigit(s[0]) && Hex.IsDigit(s[1]);
    DigitsOfHex(s);
  }

  /** White space, a sign and a 0x before the digits; a minus counts down from 2^16. */
  lemma {:induction false} StrtoullTells(s: string, c: char)
    requires s != "" && Hex.AllDigits(s)
    ensures Strtoull(s) == ToWord(Hex.Value(s))
    ensures c == ' ' || 9 <= c as int <= 13 ==> Strtoull([c] + s) == Strtoull(s)
    ensures c != ' ' && !(9 <= c as int <= 13) && c != '-' && c != '+' && !Hex.IsDigit(c) && !('A' <= c <= 'F') ==>
              Strtoull([c] + s) == 0
    ensures Strtoull("0x" + s) == ToWord(Hex.Value(s))
    ensures Strtoull("+" + s) == ToWord(Hex.Value(s))
    ensures Strtoull("-" + s) == ToWord(0 - Hex.Value(s))
  {
    hide Hex.Value;
    DigitsOfHex(s);
    assert Hex.IsDigit(s[0]) && (|s| > 1 ==> Hex.IsDigit(s[1]));
    assert ([c] + s)[1..] == s && ("+" + s)[1..] == s && ("-" + s)[1..] == s && ("0x" + s)[2..] == s;
    assert SkipSpace(s) == s && SkipPrefix(s) == s;
  }

  // ---- one rendered row ----

  lemma {:induction false} RowsParse(p: Parse, row: Row)
    requires !p.stopped
    requires row.Vendor? ==> row.vid != 0 && row.name != ""
    requires row.Product? ==> p.vid != 0 && row.name != ""
    ensures ParseLine(p, Render(row)) ==
            match row
            case Vendor(vid, name) => p.(vid := vid, index := p.index[VendorKey(vid) := name])
            case Product(pid, name) => p.(index := p.index[ProductKey(p.vid, pid) := name])
            case _ => p
  {
    hide Hex.Pad, Strtoull;
    var line := Render(row);
    match row
    case Vendor(vid, name) =>
      Pad4(vid);
      assert line[..4] == Hex.Pad(vid, 4) && line[6..] == name;
      assert Hex.IsDigit(line[0]);
    case Product(pid, name) =>
      Pad4(pid);
      assert line[1..5] == Hex.Pad(pid, 4) && line[7..] == name;
    case _ =>
  }

  lemma {:induction false} KeysDiffer(v: Word, w: Word, p: Word, q: Word)
    ensures VendorKey(v) == VendorKey(w) <==> v == w
    ensures VendorKey(v) != ProductKey(w, q)
    ensures ProductKey(v, p) == ProductKey(w, q) <==> v == w && p == q
  {
    Pad4(v);
    Pad4(w);
    Pad4(p);
    Pad4(q);
    hide Hex.Pad, Strtoull;
    if ProductKey(v, p) == ProductKey(w, q) {
      assert ProductKey(v, p)[..4] == Hex.Pad(v, 4) && ProductKey(w, q)[..4] == Hex.Pad(w, 4);
      assert ProductKey(v, p)[5..] == Hex.Pad(p, 4) && ProductKey(w, q)[5..] == Hex.Pad(q, 4);
    }
  }

  // ---- the whole file ----

  /** What the parser holds after the rows. */
  ghost predicate Agrees(p: Parse, rows: seq<Row>) {
    && !p.stopped && p.vid == CurrentVendor(rows)
    && (forall v: Word :: Lookup(p.index, VendorKey(v)) == VendorName(rows, v))
    && (forall v: Word, q: Word :: Lookup(p.index, ProductKey(v, q)) == ProductName(rows, v, q))
  }

  lemma {:induction false} VendorAgrees(index: Index, rows: seq<Row>, vid: Word, name: string, v: Word, q: Word)
    requires rows != [] && rows[|rows| - 1] == Vendor(vid, name)
    requires Lookup(index, VendorKey(v)) == VendorName(rows[..|rows| - 1], v)
    requires Lookup(index, ProductKey(v, q)) == ProductName(rows[..|rows| - 1], v, q)
    ensures Lookup(index[VendorKey(vid) := name], VendorKey(v)) == VendorName(rows, v)
    ensures Lookup(index[VendorKey(vid) := name], ProductKey(v, q)) == ProductName(rows, v, q)
  {
    hide VendorKey, ProductKey;
    KeysDiffer(v, vid, q, q);
    KeysDiffer(vid, v, q, q);
  }

  lemma {:induction false} ProductAgrees(index: Index, rows: seq<Row>, vid: Word, pid: Word, name: string, v: Word, q: Word)
    requires rows != [] && rows[|rows| - 1] == Product(pid, name) && vid == CurrentVendor(rows[..|rows| - 1])
    requires Lookup(index, VendorKey(v)) == VendorName(rows[..|rows| - 1], v)
    requires Lookup(index, ProductKey(v, q)) == ProductName(rows[..|rows| - 1], v, q)
    ensures Lookup(index[ProductKey(vid, pid) := name], VendorKey(v)) == VendorName(rows, v)
    ensures Lookup(index[ProductKey(vid, pid) := name], ProductKey(v, q)) == ProductName(rows, v, q)
  {
    hide VendorKey, ProductKey;
    KeysDiffer(v, vid, q, pid);
  }

  lemma {:induction false} RowAgrees(p: Parse, rows: seq<Row>)
    requires rows != [] && WellFormed(rows) && Agrees(p, rows[..|rows| - 1])
    ensures Agrees(ParseLine(p, Render(rows[|rows| - 1])), rows)
  {
    var n := |rows| - 1;
    assert GoodRow(rows, n);
    RowsParse(p, rows[n]);
    hide ParseLine, Render, VendorKey, ProductKey, WellFormed, Lookup;
    var p' := ParseLine(p, Render(rows[n]));
    match rows[n]
    case Vendor(vid, name) =>
      hide VendorName, ProductName;
      forall v: Word ensures Lookup(p'.index, VendorKey(v)) == VendorName(rows, v) {
        VendorAgrees(p.index, rows, vid, name, v, 0);
      }
      forall v: Word, q: Word ensures Lookup(p'.index, ProductKey(v, q)) == ProductName(rows, v, q) {
        VendorAgrees(p.index, rows, vid, name, v, q);
      }
    case Product(pid, name) =>
      hide VendorName, ProductName;
      forall v: Word ensures Lookup(p'.index, VendorKey(v)) == VendorName(rows, v) {
        ProductAgrees(p.index, rows, p.vid, pid, name, v, 0);
      }
      forall v: Word, q: Word ensures Lookup(p'.index, ProductKey(v, q)) == ProductName(rows, v, q) {
        ProductAgrees(p.index, rows, p.vid, pid, name, v, q);
      }
    case _ =>
  }

  lemma {:induction false} ParseAppend(p: Parse, a: seq<string>, b: seq<string>)
    requires !ParseLines(p, a).stopped
    ensures ParseLines(p, a + b) == ParseLines(ParseLines(p, a), b)
    decreases a
  {
    hide ParseLine;
    if a == [] {
      assert a + b == b;
    } else {
      assert (a + b)[1..] == a[1..] + b;
      ParseAppend(ParseLine(p, a[0]), a[1..], b);
    }
  }

  lemma {:induction false} WellFormedBefore(rows: seq<Row>)
    requires rows != [] && WellFormed(rows)
    ensures WellFormed(rows[..|rows| - 1])
  {
    var n := |rows| - 1;
    forall i | 0 <= i < n ensures GoodRow(rows[..n], i) {
      assert GoodRow(rows, i) && rows[..n][..i] == rows[..i];
    }
  }

  lemma {:induction false} ParseOneMore(p: Parse, lines: seq<string>, line: string)
    requires !ParseLines(p, lines).stopped
    ensures ParseLines(p, lines + [line]) == ParseLine(ParseLines(p, lines), line)
  {
    ParseAppend(p, lines, [line]);
    assert [line][1..] == [];
  }

  lemma {:induction false} RenderLast(rows: seq<Row>)
    requires rows != []
    ensures RenderAll(rows) == RenderAll(rows[..|rows| - 1]) + [Render(rows[|rows| - 1])]
  {
  }

  lemma {:induction false} RowsAgree(rows: seq<Row>)
    requires WellFormed(rows)
    ensures Agrees(ParseLines(Parse(map[], 0, false), RenderAll(rows)), rows)
  {
    if rows != [] {
      hide Agrees, ParseLine, WellFormed, Render, RenderAll, ParseLines;
      var n := |rows| - 1;
      WellFormedBefore(rows);
      RowsAgree(rows[..n]);
      var p := ParseLines(Parse(map[], 0, false), RenderAll(rows[..n]));
      AgreesRuns(p, rows[..n]);
      RowAgrees(p, rows);
      RenderLast(rows);
      ParseOneMore(Parse(map[], 0, false), RenderAll(rows[..n]), Render(rows[n]));
    }
  }

  lemma {:induction false} AgreesRuns(p: Parse, rows: seq<Row>)
    requires Agrees(p, rows)
    ensures !p.stopped
  {
  }

  lemma {:induction false} ClassesEndIt(rows: seq<Row>, classes: seq<string>)
    requires WellFormed(rows) && (classes == [] || StartsClasses(classes[0]))
    ensures IndexOf(RenderAll(rows) + classes) == IndexOf(RenderAll(rows))
  {
    var p := ParseLines(Parse(map[], 0, false), RenderAll(rows));
    RowsAgree(rows);
    AgreesRuns(p, rows);
    hide WellFormed, Render, RenderAll, Agrees, StartsClasses;
    ParseAppend(Parse(map[], 0, false), RenderAll(rows), classes);
    if classes != [] {
      StartsClassesStops(p, classes[0]);
    }
  }

  lemma {:induction false} StartsClassesStops(p: Parse, line: string)
    requires StartsClasses(line)
    ensures ParseLine(p, line) == p.(stopped := true)
  {
    assert line[0] == 'C';
  }

  /**
   * The index of a rendered table answers both lookups with the last name the table gives and misses what
   * the table does not name, whether the file ends there or goes on with the device classes.
   */
  lemma {:induction false} IndexAgreesWithTable(rows: seq<Row>, classes: seq<string>, vid: Word, pid: Word)
    requires WellFormed(rows)
    requires classes == [] || StartsClasses(classes[0])
    requires |rows| + |classes| > 0 && Text.Free(RenderAll(rows) + classes, '\n')
    ensures var index := IndexOfFile(Text.Join(RenderAll(rows) + classes, '\n'));
            && Lookup(index, VendorKey(vid)) == VendorName(rows, vid)
            && Lookup(index, ProductKey(vid, pid)) == ProductName(rows, vid, pid)
  {
    hide WellFormed, Render, RenderAll, VendorKey, ProductKey, Lookup, ParseLines, Text.Split, Text.Join, Text.Free;
    RowsAgree(rows);
    Text.SplitJoin(RenderAll(rows) + classes, '\n');
    ClassesEndIt(rows, classes);
  }
}
