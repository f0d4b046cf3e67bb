/** The `mtdparts` partition table of `parameter.txt`: parser, printer and validation. */
module Mtdparts {
  import opened Results
  import opened Widths
  import opened Strings


  datatype Attribute = Bootable | Grow

  datatype GrammarBranch = Fixed | FixedBootable | RemainderGrow

  datatype Entry = Entry(
    index: nat, name: string, offset: nat, size: Option<nat>, attribute: Option<Attribute>, branch: GrammarBranch)

  datatype Table = Table(device: string, blockSize: nat, entries: seq<Entry>)

  datatype Error =
    | MissingCmdline | MissingMtdparts | MissingDevice | EmptyPartitionList
    | Malformed(text: string)
    | UnknownAttribute(partition: string, attribute: string)
    | BadHex(partition: string, field: string, value: string)

  // ----- Text

  predicate IsBlank(c: char) {
    IsWhite(c as int)
  }

  predicate NoWhite(s: string) {
    forall i :: 0 <= i < |s| ==> !IsBlank(s[i])
  }

  /** Where the character stands first, or the length. */
  function Find(s: string, c: char): (i: nat)
    ensures i <= |s| && c !in s[..i] && (i < |s| ==> s[i] == c)
  {
    if s == [] || s[0] == c then 0 else 1 + Find(s[1..], c)
  }

  /** `str::lines`. */
  function Lines(s: string): (r: seq<string>)
    decreases |s|
  {
    if s == [] then []
    else
      var i := Find(s, '\n');
      if i == |s| then [s]
      else [if i > 0 && s[i - 1] == '\r' then s[..i - 1] else s[..i]] + Lines(s[i + 1..])
  }

  function FirstWhite(s: string): (i: nat)
    ensures i <= |s| && NoWhite(s[..i]) && (i < |s| ==> IsBlank(s[i]))
  {
    if s == [] || IsBlank(s[0]) then 0 else 1 + FirstWhite(s[1..])
  }

  /** `split_whitespace`. */
  function Words(s: string): (r: seq<string>)
    ensures forall i :: 0 <= i < |r| ==> NoWhite(r[i])
    decreases |s|
  {
    if s == [] then []
    else if IsBlank(s[0]) then Words(s[1..])
    else
      var i := FirstWhite(s);
      [s[..i]] + Words(s[i..])
  }

  const CMDLINE: string := "CMDLINE:"
  const MTDPARTS: string := "mtdparts="

  /** The first line that, trimmed, starts with the marker. */
  function FindCmdline(lines: seq<string>): (r: Option<string>)
    ensures r.Some? ==> CMDLINE <= r.value
  {
    if lines == [] then None
    else if CMDLINE <= Trim(lines[0], IsBlank) then Some(Trim(lines[0], IsBlank))
    else FindCmdline(lines[1..])
  }

  /** `find_map(strip_prefix)`. */
  function FindMtdparts(words: seq<string>): (r: Option<string>)
    ensures (forall i :: 0 <= i < |words| ==> NoWhite(words[i])) && r.Some? ==> NoWhite(r.value)
  {
    if words == [] then None
    else if MTDPARTS <= words[0] then Some(words[0][|MTDPARTS|..])
    else FindMtdparts(words[1..])
  }

  // ----- Numbers

  predicate IsHexDigit(c: char) {
    '0' <= c <= '9' || 'a' <= c <= 'f' || 'A' <= c <= 'F'
  }

  function DigitValue(c: char): (d: nat)
    requires IsHexDigit(c)
    ensures d < 16
  {
    if c <= '9' then c as int - '0' as int
    else if c <= 'F' then c as int - 'A' as int + 10
    else c as int - 'a' as int + 10
  }

  predicate AreHex(s: string) {
    forall i :: 0 <= i < |s| ==> IsHexDigit(s[i])
  }

  function HexValue(s: string): (v: nat)
    requires AreHex(s)
  {
    if s == [] then 0 else 16 * HexValue(s[..|s| - 1]) + DigitValue(s[|s| - 1])
  }

  function ParseHex(text: string): (r: Option<nat>)
    ensures r.Some? ==> r.value < U64_LIMIT
  {
    if !("0x" <= text || "0X" <= text) then None
    else
      var digits := text[2..];
      if digits == [] || !AreHex(digits) || HexValue(digits) >= U64_LIMIT then None else Some(HexValue(digits))
  }

  function HexDigit(d: nat): (c: char)
    requires d < 16
    ensures IsHexDigit(c) && DigitValue(c) == d
  {
    if d < 10 then ('0' as int + d) as char else ('a' as int + d - 10) as char
  }

  /** `{:x}`. */
  function Hex(v: nat): (s: string)
    ensures s != [] && AreHex(s)
  {
    if v < 16 then [HexDigit(v)] else Hex(v / 16) + [HexDigit(v % 16)]
  }

  function Zeros(n: nat): (s: string)
    ensures |s| == n && AreHex(s)
  {
    seq(n, _ => '0')
  }

  /** A number as the grammar writes it, with any number of leading zeros. */
  function PrintHex(v: nat, zeros: nat): (s: string) {
    "0x" + (Zeros(zeros) + Hex(v))
  }

  lemma {:induction false} HexValueOf(v: nat)
    ensures HexValue(Hex(v)) == v
  {
    if v < 16 {
    } else {
      HexValueOf(v / 16);
      assert Hex(v)[..|Hex(v)| - 1] == Hex(v / 16);
    }
  }

  lemma {:induction false} LeadingZeros(n: nat, s: string)
    requires AreHex(s)
    ensures AreHex(Zeros(n) + s) && HexValue(Zeros(n) + s) == HexValue(s)
  {
    var all := Zeros(n) + s;
    if s != [] {
      LeadingZeros(n, s[..|s| - 1]);
      assert all[..|all| - 1] == Zeros(n) + s[..|s| - 1];
    } else if n > 0 {
      LeadingZeros(n - 1, s);
      assert all[..|all| - 1] == Zeros(n - 1) + s;
    }
  }

  lemma HexRoundTrip(v: nat, zeros: nat)
    requires v < U64_LIMIT
    ensures ParseHex(PrintHex(v, zeros)) == Some(v)
  {
    HexValueOf(v);
    LeadingZeros(zeros, Hex(v));
    assert PrintHex(v, zeros)[2..] == Zeros(zeros) + Hex(v);
  }

  // ----- Entries

  function ParseAttribute(text: string): (r: Option<Attribute>) {
    if text == "bootable" then Some(Bootable) else if text == "grow" then Some(Grow) else None
  }

  function AttributeText(a: Attribute): (text: string) {
    if a == Bootable then "bootable" else "grow"
  }

  lemma AttributeRoundTrip(a: Attribute)
    ensures ParseAttribute(AttributeText(a)) == Some(a)
  {
    assert a == Grow ==> |AttributeText(a)| == 4;
    assert |"bootable"| == 8;
  }

  /** The branch of the grammar, or none: a remainder grows, and only a remainder does. */
  function BranchOf(size: Option<nat>, attribute: Option<Attribute>): (r: Option<GrammarBranch>) {
    match (size, attribute)
    case (None, Some(Grow)) => Some(RemainderGrow)
    case (Some(_), Some(Bootable)) => Some(FixedBootable)
    case (Some(_), None) => Some(Fixed)
    case _ => None
  }

  /** What stands between the parentheses. */
  datatype Label = Label(name: string, attribute: Option<Attribute>)

  function ParseLabel(inside: string, descriptor: string): (r: Result<Label, Error>)
    ensures r.Ok? ==> r.value.name != [] && ':' !in r.value.name && r.value.name <= inside
  {
    if inside == [] then Err(Malformed(descriptor))
    else
      var colon := Find(inside, ':');
      var name := inside[..colon];
      if name == [] then Err(Malformed(descriptor))
      else if colon == |inside| then Ok(Label(name, None))
      else
        match ParseAttribute(inside[colon + 1..])
        case None => Err(UnknownAttribute(name, inside[colon + 1..]))
        case Some(a) => Ok(Label(name, Some(a)))
  }

  function ParseSize(text: string, name: string): (r: Result<Option<nat>, Error>)
    ensures r.Ok? && r.value.Some? ==> r.value.value < U64_LIMIT
  {
    if text == "-" then Ok(None)
    else
      match ParseHex(text)
      case None => Err(BadHex(name, "size", text))
      case Some(v) => Ok(Some(v))
  }

  function ParseOffset(text: string, name: string): (r: Result<nat, Error>)
    ensures r.Ok? ==> r.value < U64_LIMIT
  {
    match ParseHex(text)
    case None => Err(BadHex(name, "offset", text))
    case Some(v) => Ok(v)
  }

  /** The three parts of a descriptor: in front of the at sign, up to the parenthesis, and inside. */
  datatype Pieces = Pieces(size: string, offset: string, inside: string)

  function Cut(d: string): (r: Option<Pieces>)
    ensures r.Some? ==> |r.value.inside| <= |d| && forall c :: c in r.value.inside ==> c in d
  {
    var at := Find(d, '@');
    if at == |d| then None
    else
      var rest := d[at + 1..];
      var open := Find(rest, '(');
      if open == |rest| || rest[|rest| - 1] != ')' then None
      else Some(Pieces(d[..at], rest[..open], rest[open + 1..|rest| - 1]))
  }

  function ParsePieces(index: nat, p: Pieces, descriptor: string): (r: Result<Entry, Error>) {
    var tag :- ParseLabel(p.inside, descriptor);
    var size :- ParseSize(p.size, tag.name);
    var offset :- ParseOffset(p.offset, tag.name);
    match BranchOf(size, tag.attribute)
    case None => Err(Malformed(descriptor))
    case Some(branch) => Ok(Entry(index, tag.name, offset, size, tag.attribute, branch))
  }

  function ParsePartition(index: nat, descriptor: string): (r: Result<Entry, Error>) {
    match Cut(descriptor)
    case None => Err(Malformed(descriptor))
    case Some(pieces) => ParsePieces(index, pieces, descriptor)
  }

  /** A name the grammar can carry. */
  predicate IsName(name: string) {
    name != [] && ':' !in name && ',' !in name && NoWhite(name)
  }

  predicate ConformsEntry(e: Entry, index: nat) {
    && e.index == index && IsName(e.name) && e.offset < U64_LIMIT && (e.size.Some? ==> e.size.value < U64_LIMIT)
    && BranchOf(e.size, e.attribute) == Some(e.branch)
  }

  function PrintSize(size: Option<nat>, zeros: nat): (s: string) {
    if size.None? then "-" else PrintHex(size.value, zeros)
  }

  function PrintLabel(e: Entry): (s: string) {
    e.name + if e.attribute.None? then [] else [':'] + AttributeText(e.attribute.value)
  }

  function PrintEntry(e: Entry, zeros: nat): (s: string) {
    PrintSize(e.size, zeros) + ['@'] + (PrintHex(e.offset, zeros) + ['('] + (PrintLabel(e) + [')']))
  }

  lemma {:induction false} FindAt(a: string, c: char, b: string)
    requires c !in a
    ensures Find(a + [c] + b, c) == |a|
  {
    var s := a + [c] + b;
    if a == [] {
      assert s[0] == c;
    } else {
      FindAt(a[1..], c, b);
      assert s[0] == a[0] && s[1..] == a[1..] + [c] + b;
    }
  }

  lemma {:induction false} FindNowhere(s: string, c: char)
    requires c !in s
    ensures Find(s, c) == |s|
  {
    if s == [] {
    } else {
      FindNowhere(s[1..], c);
    }
  }

  /** Printed numbers hold nothing but digits and the prefix. */
  lemma PlainNumber(v: nat, zeros: nat, c: char)
    requires c in PrintHex(v, zeros)
    ensures IsHexDigit(c) || c == 'x'
  {
  }

  lemma LabelRoundTrip(e: Entry, descriptor: string)
    requires IsName(e.name)
    ensures ParseLabel(PrintLabel(e), descriptor) == Ok(Label(e.name, e.attribute))
  {
    var inside := PrintLabel(e);
    if e.attribute.None? {
      FindNowhere(e.name, ':');
      assert inside == e.name;
    } else {
      var text := AttributeText(e.attribute.value);
      AttributeRoundTrip(e.attribute.value);
      FindAt(e.name, ':', text);
      assert inside == e.name + [':'] + text;
      assert inside[..|e.name|] == e.name && inside[|e.name| + 1..] == text;
    }
  }

  lemma CutParts(size: string, offset: string, inside: string)
    requires '@' !in size && '(' !in offset
    ensures Cut(size + ['@'] + (offset + ['('] + (inside + [')']))) == Some(Pieces(size, offset, inside))
  {
    var rest := offset + ['('] + (inside + [')']);
    var d := size + ['@'] + rest;
    FindAt(size, '@', rest);
    assert d[..|size|] == size && d[|size| + 1..] == rest;
    FindAt(offset, '(', inside + [')']);
    assert rest[..|offset|] == offset && rest[|offset| + 1..|rest| - 1] == inside;
  }

  lemma CutPrinted(e: Entry, zeros: nat)
    ensures Cut(PrintEntry(e, zeros)) == Some(Pieces(PrintSize(e.size, zeros), PrintHex(e.offset, zeros), PrintLabel(e)))
  {
    var size, offset := PrintSize(e.size, zeros), PrintHex(e.offset, zeros);
    if '@' in size {
      PlainNumber(e.size.value, zeros, '@');
    }
    if '(' in offset {
      PlainNumber(e.offset, zeros, '(');
    }
    CutParts(size, offset, PrintLabel(e));
  }

  lemma SizeRoundTrip(size: Option<nat>, zeros: nat, name: string)
    requires size.Some? ==> size.value < U64_LIMIT
    ensures ParseSize(PrintSize(size, zeros), name) == Ok(size)
  {
    if size.Some? {
      HexRoundTrip(size.value, zeros);
      assert |PrintSize(size, zeros)| > 1;
    }
  }

  lemma EntryRoundTrip(e: Entry, index: nat, zeros: nat)
    requires ConformsEntry(e, index)
    ensures ParsePartition(index, PrintEntry(e, zeros)) == Ok(e)
  {
    CutPrinted(e, zeros);
    LabelRoundTrip(e, PrintEntry(e, zeros));
    HexRoundTrip(e.offset, zeros);
    SizeRoundTrip(e.size, zeros, e.name);
  }

  /** What the parser accepts conforms. */
  lemma ParsedEntryConforms(index: nat, descriptor: string)
    requires ParsePartition(index, descriptor).Ok? && ',' !in descriptor && NoWhite(descriptor)
    ensures ConformsEntry(ParsePartition(index, descriptor).value, index)
  {
    var inside := Cut(descriptor).value.inside;
    var name := ParseLabel(inside, descriptor).value.name;
    forall i | 0 <= i < |name|
      ensures name[i] in descriptor
    {
      assert name[i] == inside[i];
    }
  }

  // ----- Tables

  type EntryParser = (nat, string) -> Result<Entry, Error>

  function ParseEntries(index: nat, parts: seq<string>, parse: EntryParser): (r: Result<seq<Entry>, Error>)
    decreases |parts|
  {
    if parts == [] then Ok([])
    else if Trim(parts[0], IsBlank) == [] then Err(EmptyPartitionList)
    else
      var entry :- parse(index, Trim(parts[0], IsBlank));
      var more :- ParseEntries(index + 1, parts[1..], parse);
      Ok([entry] + more)
  }

  function ParseAssignment(mtdparts: string, blockSize: nat, parse: EntryParser): (r: Result<Table, Error>) {
    var colon := Find(mtdparts, ':');
    if colon == |mtdparts| || colon == 0 then Err(MissingDevice)
    else if mtdparts[colon + 1..] == [] then Err(EmptyPartitionList)
    else
      var entries :- ParseEntries(0, Split(mtdparts[colon + 1..], ','), parse);
      Ok(Table(mtdparts[..colon], blockSize, entries))
  }

  function ParseTable(text: string, blockSize: nat): (r: Result<Table, Error>) {
    ParseWith(text, blockSize, ParsePartition)
  }

  function ParseWith(text: string, blockSize: nat, parse: EntryParser): (r: Result<Table, Error>) {
    match FindCmdline(Lines(text))
    case None => Err(MissingCmdline)
    case Some(line) =>
      match FindMtdparts(Words(line[|CMDLINE|..]))
      case None => Err(MissingMtdparts)
      case Some(mtdparts) => ParseAssignment(mtdparts, blockSize, parse)
  }

  /** The loop of `parse_parameter`. */
  method ParseList(parts: seq<string>, parse: EntryParser) returns (r: Result<seq<Entry>, Error>)
    ensures r == ParseEntries(0, parts, parse)
  {
    var entries: seq<Entry> := [];
    ghost var goal := ParseEntries(0, parts, parse);
    assert parts[0..] == parts;
    PrependNothing(goal);
    for i := 0 to |parts|
      invariant goal == Prepend(entries, ParseEntries(i, parts[i..], parse))
    {
      var descriptor := Trim(parts[i], IsBlank);
      if descriptor == [] {
        return Err(EmptyPartitionList);
      }
      var entry := parse(i, descriptor);
      if entry.Err? {
        return Err(entry.error);
      }
      assert parts[i..][1..] == parts[i + 1..];
      PrependTwice(entries, [entry.value], ParseEntries(i + 1, parts[i + 1..], parse));
      entries := entries + [entry.value];
    }
    assert entries + [] == entries;
    return Ok(entries);
  }

  /** `parse_parameter`. */
  method ParseParameter(text: string, blockSize: nat) returns (r: Result<Table, Error>)
    ensures r == ParseTable(text, blockSize)
  {
    var line := FindCmdline(Lines(text));
    if line.None? {
      return Err(MissingCmdline);
    }
    var found := FindMtdparts(Words(line.value[|CMDLINE|..]));
    if found.None? {
      return Err(MissingMtdparts);
    }
    var mtdparts := found.value;
    var colon := Find(mtdparts, ':');
    if colon == |mtdparts| || colon == 0 {
      return Err(MissingDevice);
    }
    if mtdparts[colon + 1..] == [] {
      return Err(EmptyPartitionList);
    }
    var entries := ParseList(Split(mtdparts[colon + 1..], ','), ParsePartition);
    if entries.Err? {
      return Err(entries.error);
    }
    return Ok(Table(mtdparts[..colon], blockSize, entries.value));
  }

  /** A table the grammar can express. */
  predicate Conforms(t: Table) {
    && t.device != [] && ':' !in t.device && NoWhite(t.device) && t.entries != []
    && forall i :: 0 <= i < |t.entries| ==> ConformsEntry(t.entries[i], i)
  }

  type EntryPrinter = Entry -> string

  function PrintAll(entries: seq<Entry>, print1: EntryPrinter): (r: seq<string>) {
    seq(|entries|, i requires 0 <= i < |entries| => print1(entries[i]))
  }

  function PrintWith(t: Table, print1: EntryPrinter): (s: string)
    requires t.entries != []
  {
    CMDLINE + (MTDPARTS + (t.device + [':'] + Join(PrintAll(t.entries, print1), ',')))
  }

  function Print(t: Table, zeros: nat): (s: string)
    requires t.entries != []
  {
    PrintWith(t, (e: Entry) => PrintEntry(e, zeros))
  }

  lemma {:induction false} JoinNoWhite(parts: seq<string>)
    requires parts != [] && forall i :: 0 <= i < |parts| ==> NoWhite(parts[i])
    ensures NoWhite(Join(parts, ','))
    decreases |parts|
  {
    if |parts| <= 1 {
    } else {
      JoinNoWhite(parts[1..]);
    }
  }

  /** A printed entry has no white space and no comma. */
  lemma PlainEntry(e: Entry, zeros: nat)
    requires IsName(e.name)
    ensures NoWhite(PrintEntry(e, zeros)) && ',' !in PrintEntry(e, zeros) && PrintEntry(e, zeros) != []
  {
    var d := PrintEntry(e, zeros);
    forall i | 0 <= i < |d|
      ensures !IsBlank(d[i]) && d[i] != ','
    {
      var c := d[i];
      if c in PrintSize(e.size, zeros) {
        if e.size.Some? {
          PlainNumber(e.size.value, zeros, c);
        }
      } else if c in PrintHex(e.offset, zeros) {
        PlainNumber(e.offset, zeros, c);
      } else if c in PrintLabel(e) {
        PlainLabel(e, c);
      }
    }
  }

  lemma PlainLabel(e: Entry, c: char)
    requires IsName(e.name) && c in PrintLabel(e)
    ensures !IsBlank(c) && c != ','
  {
    if c !in e.name && c != ':' {
      assert c in "bootable" || c in "grow";
    }
  }

  lemma NoTrim(s: string)
    requires NoWhite(s)
    ensures Trim(s, IsBlank) == s
  {
  }

  lemma OneWord(s: string)
    requires NoWhite(s) && s != []
    ensures Words(s) == [s]
  {
    var i := FirstWhite(s);
    assert i == |s|;
    assert s[..i] == s && s[i..] == [];
  }

  predicate Reads(parse: EntryParser, d: string, index: nat, e: Entry) {
    d != [] && Trim(d, IsBlank) == d && parse(index, d) == Ok(e)
  }

  lemma {:induction false} AllRead(parse: EntryParser, parts: seq<string>, entries: seq<Entry>, index: nat)
    requires |parts| == |entries| && forall i :: 0 <= i < |parts| ==> Reads(parse, parts[i], index + i, entries[i])
    ensures ParseEntries(index, parts, parse) == Ok(entries)
    decreases |parts|
  {
    if parts == [] {
    } else {
      var rest, more := parts[1..], entries[1..];
      assert Reads(parse, parts[0], index + 0, entries[0]);
      forall i | 0 <= i < |rest|
        ensures Reads(parse, rest[i], index + 1 + i, more[i])
      {
        assert Reads(parse, parts[i + 1], index + (i + 1), entries[i + 1]);
      }
      AllRead(parse, rest, more, index + 1);
      assert entries == [entries[0]] + more;
    }
  }

  /** The printer writes plain descriptors that the parser reads back. */
  ghost predicate Faithful(parse: EntryParser, print1: EntryPrinter) {
    forall e, i: nat :: ConformsEntry(e, i) ==>
                          Reads(parse, print1(e), i, e) && NoWhite(print1(e)) && ',' !in print1(e)
  }

  lemma EntriesRoundTrip(parse: EntryParser, print1: EntryPrinter, entries: seq<Entry>)
    requires Faithful(parse, print1) && forall i :: 0 <= i < |entries| ==> ConformsEntry(entries[i], i)
    ensures ParseEntries(0, PrintAll(entries, print1), parse) == Ok(entries)
  {
    var parts := PrintAll(entries, print1);
    forall i | 0 <= i < |parts|
      ensures Reads(parse, parts[i], 0 + i, entries[i])
    {
      assert ConformsEntry(entries[i], i);
    }
    AllRead(parse, parts, entries, 0);
  }

  lemma RoundTripWith(parse: EntryParser, print1: EntryPrinter, t: Table)
    requires Faithful(parse, print1) && Conforms(t)
    ensures ParseWith(PrintWith(t, print1), t.blockSize, parse) == Ok(t)
  {
    var parts := PrintAll(t.entries, print1);
    forall i | 0 <= i < |parts|
      ensures NoWhite(parts[i]) && ',' !in parts[i] && parts[i] != []
    {
      assert ConformsEntry(t.entries[i], i);
    }
    JoinNoWhite(parts);
    var list := Join(parts, ',');
    assert list != [] by {
      assert parts[0] != [];
    }
    SplitJoin(parts, ',');
    EntriesRoundTrip(parse, print1, t.entries);
    var assignment := t.device + [':'] + list;
    FindAt(t.device, ':', list);
    assert assignment[..|t.device|] == t.device && assignment[|t.device| + 1..] == list;
    assert NoWhite(assignment);
    FindsAssignment(assignment);
  }

  lemma PrintedReads(e: Entry, index: nat, zeros: nat)
    requires ConformsEntry(e, index)
    ensures Reads(ParsePartition, PrintEntry(e, zeros), index, e)
    ensures NoWhite(PrintEntry(e, zeros)) && ',' !in PrintEntry(e, zeros)
  {
    PlainEntry(e, zeros);
    NoTrim(PrintEntry(e, zeros));
    EntryRoundTrip(e, index, zeros);
  }

  lemma PrinterIsFaithful(zeros: nat)
    ensures Faithful(ParsePartition, (e: Entry) => PrintEntry(e, zeros))
  {
    forall e, i: nat | ConformsEntry(e, i)
      ensures var d := PrintEntry(e, zeros); Reads(ParsePartition, d, i, e) && NoWhite(d) && ',' !in d
    {
      PrintedReads(e, i, zeros);
    }
  }

  /** Printing a table and parsing the text returns the table. */
  lemma TableRoundTrip(t: Table, zeros: nat)
    requires Conforms(t)
    ensures ParseTable(Print(t, zeros), t.blockSize) == Ok(t)
  {
    PrinterIsFaithful(zeros);
    RoundTripWith(ParsePartition, (e: Entry) => PrintEntry(e, zeros), t);
  }

  lemma FindsLine(line: string)
    requires NoWhite(line) && CMDLINE <= line
    ensures FindCmdline(Lines(line)) == Some(line)
  {
    assert IsBlank('\n');
    assert forall i :: 0 <= i < |line| ==> line[i] != '\n';
    FindNowhere(line, '\n');
    NoTrim(line);
  }

  lemma FindsWord(assignment: string)
    requires NoWhite(MTDPARTS + assignment)
    ensures FindMtdparts(Words(MTDPARTS + assignment)) == Some(assignment)
  {
    var word := MTDPARTS + assignment;
    OneWord(word);
    assert MTDPARTS <= word && word[|MTDPARTS|..] == assignment;
  }

  lemma FindsAssignment(assignment: string)
    requires NoWhite(assignment)
    ensures FindCmdline(Lines(CMDLINE + (MTDPARTS + assignment))) == Some(CMDLINE + (MTDPARTS + assignment))
    ensures FindMtdparts(Words((CMDLINE + (MTDPARTS + assignment))[|CMDLINE|..])) == Some(assignment)
  {
    var word := MTDPARTS + assignment;
    var line := CMDLINE + word;
    assert NoWhite(word) && NoWhite(line);
    assert CMDLINE <= line && line[|CMDLINE|..] == word;
    FindsLine(line);
    FindsWord(assignment);
  }

  // ----- The parser's range

  lemma {:induction false} EntriesFrom(parse: EntryParser, parts: seq<string>, index: nat)
    requires ParseEntries(index, parts, parse).Ok?
    ensures var entries := ParseEntries(index, parts, parse).value;
            |entries| == |parts| && forall i :: 0 <= i < |entries| ==> parse(index + i, Trim(parts[i], IsBlank)) == Ok(entries[i])
    decreases |parts|
  {
    if parts == [] {
    } else {
      EntriesFrom(parse, parts[1..], index + 1);
      var entries := ParseEntries(index, parts, parse).value;
      forall i | 0 <= i < |entries|
        ensures parse(index + i, Trim(parts[i], IsBlank)) == Ok(entries[i])
      {
        if i > 0 {
          var rest := ParseEntries(index + 1, parts[1..], parse).value;
          assert parse(index + 1 + (i - 1), Trim(parts[1..][i - 1], IsBlank)) == Ok(rest[i - 1]);
        }
      }
    }
  }

  /** What a parser reads from a plain descriptor, the grammar can express. */
  ghost predicate OnlyConforming(parse: EntryParser) {
    forall index, d :: parse(index, d).Ok? && ',' !in d && NoWhite(d) ==> ConformsEntry(parse(index, d).value, index)
  }

  lemma EntriesConform(parse: EntryParser, parts: seq<string>)
    requires OnlyConforming(parse) && ParseEntries(0, parts, parse).Ok?
    requires forall i :: 0 <= i < |parts| ==> ',' !in parts[i] && NoWhite(parts[i])
    ensures var entries := ParseEntries(0, parts, parse).value;
            |entries| == |parts| && forall i :: 0 <= i < |entries| ==> ConformsEntry(entries[i], i)
  {
    EntriesFrom(parse, parts, 0);
    var entries := ParseEntries(0, parts, parse).value;
    forall i | 0 <= i < |entries|
      ensures ConformsEntry(entries[i], i)
    {
      NoTrim(parts[i]);
      assert parse(0 + i, parts[i]) == Ok(entries[i]);
    }
  }

  lemma ParsedConforms()
    ensures OnlyConforming(ParsePartition)
  {
    forall index, d | ParsePartition(index, d).Ok? && ',' !in d && NoWhite(d)
      ensures ConformsEntry(ParsePartition(index, d).value, index)
    {
      ParsedEntryConforms(index, d);
    }
  }

  lemma SplitKeeps(s: string, c: char, i: nat)
    requires NoWhite(s) && i < |Split(s, c)|
    ensures NoWhite(Split(s, c)[i])
  {
    var part := Split(s, c)[i];
    forall k | 0 <= k < |part|
      ensures !IsBlank(part[k])
    {
      SplitElements(s, c, part, part[k]);
    }
  }

  /** Whatever the text, a parsed table conforms, so printing it loses nothing. */
  lemma ParsedTableConforms(text: string, blockSize: nat)
    requires ParseTable(text, blockSize).Ok?
    ensures Conforms(ParseTable(text, blockSize).value)
  {
    var line := FindCmdline(Lines(text)).value;
    var mtdparts := FindMtdparts(Words(line[|CMDLINE|..])).value;
    var colon := Find(mtdparts, ':');
    var list := mtdparts[colon + 1..];
    var parts := Split(list, ',');
    forall i | 0 <= i < |parts|
      ensures ',' !in parts[i] && NoWhite(parts[i])
    {
      SplitKeeps(list, ',', i);
    }
    ParsedConforms();
    EntriesConform(ParsePartition, parts);
  }

  /** Printing and parsing again is the identity on everything the parser can return. */
  lemma ReprintIsStable(text: string, blockSize: nat, zeros: nat)
    requires ParseTable(text, blockSize).Ok?
    ensures var t := ParseTable(text, blockSize).value;
            t.entries != [] && ParseTable(Print(t, zeros), blockSize) == Ok(t)
  {
    ParsedTableConforms(text, blockSize);
    TableRoundTrip(ParseTable(text, blockSize).value, zeros);
  }
}
