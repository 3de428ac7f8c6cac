/** `parseSelfMaps`: the lines of /proc/self/maps, and the search that `hookPLTByName`
  makes in them. */
module Maps {
  import opened Streams

  type MakeDev = (int, int) -> int

  /** The number of values of `uintptr_t` and of `ino_t`, which depend on the target. */
  datatype Widths = Widths(uintptr: nat, ino: nat)

  datatype MapEntry = MapEntry(
    addressStart: nat, addressEnd: nat, offset: nat, perms: string, pathname: string,
    device: int, inode: nat)

  datatype Range = Range(start: nat, end: nat, perms: string, offset: nat)
  datatype File = File(major: int, minor: int, inode: nat)
  datatype Fields = Fields(range: Range, file: File, pathname: string)

  function ReadRange(line: string, w: Widths): Option<Read<Range>> {
    var Read(start, s1) :- ReadUnsigned(line, Hex, w.uintptr);
    var Read(_, s2) :- ReadChar(s1);
    var Read(end, s3) :- ReadUnsigned(s2, Hex, w.uintptr);
    var Read(perms, s4) :- ReadWord(s3);
    var Read(offset, s5) :- ReadUnsigned(s4, Hex, w.uintptr);
    Some(Read(Range(start, end, perms, offset), s5))
  }

  /** The device number is in base 16, the inode in base 10. */
  function ReadFile(s: string, w: Widths): Option<Read<File>> {
    var Read(major, s1) :- ReadInt(s, Hex);
    var Read(_, s2) :- ReadChar(s1);
    var Read(minor, s3) :- ReadInt(s2, Hex);
    var Read(inode, s4) :- ReadUnsigned(s3, Dec, w.ino);
    Some(Read(File(major, minor, inode), s4))
  }

  /** The path is what is left of the line; there may be none. */
  function ReadPath(s: string): string {
    match GetLine(SkipSpace(s), '\n')
    case None => ""
    case Some(line) => line.value
  }

  function ParseFields(line: string, w: Widths): Option<Fields> {
    var Read(range, s1) :- ReadRange(line, w);
    var Read(file, s2) :- ReadFile(s1, w);
    Some(Fields(range, file, ReadPath(s2)))
  }

  function EntryOf(f: Fields, makedev: MakeDev): MapEntry {
    MapEntry(f.range.start, f.range.end, f.range.offset, f.range.perms, f.pathname,
             makedev(f.file.major, f.file.minor), f.file.inode)
  }

  function ParseEntry(line: string, w: Widths, makedev: MakeDev): Option<MapEntry> {
    var fields :- ParseFields(line, w);
    Some(EntryOf(fields, makedev))
  }

  function LineParser(w: Widths, makedev: MakeDev): string -> Option<MapEntry> {
    line => ParseEntry(line, w, makedev)
  }

  function ParseText(text: string, w: Widths, makedev: MakeDev): seq<MapEntry> {
    FilterMap(Split(text, '\n'), LineParser(w, makedev))
  }

  // ---------------------------------------------------------------------------
  // The parser
  // ---------------------------------------------------------------------------

  /** One turn of the line loop. */
  method ParseLine(line: string, w: Widths, makedev: MakeDev) returns (entry: Option<MapEntry>)
    ensures entry == ParseEntry(line, w, makedev)
  {
    hide ReadUnsigned, ReadInt, ReadWord, ReadChar, GetLine, SkipSpace;
    var iss := new StringStream(line);
    var addressStart := iss.Unsigned(Hex, w.uintptr);
    var dummyChar := iss.Char();
    var addressEnd := iss.Unsigned(Hex, w.uintptr);
    var perms := iss.Word();
    var offset := iss.Unsigned(Hex, w.uintptr);
    var devMajor := iss.Int(Hex);
    dummyChar := iss.Char();
    var devMinor := iss.Int(Hex);
    var inode := iss.Unsigned(Dec, w.ino);
    if iss.failed { return None; }

    // This may fail: the path is optional.
    iss.Ws();
    var pathname := iss.Line('\n');
    entry := Some(MapEntry(addressStart, addressEnd, offset, perms, pathname,
                           makedev(devMajor, devMinor), inode));
  }

  class MapsParser {
    var parserCache: seq<MapEntry>

    constructor ()
      ensures parserCache == []
    {
      parserCache := [];
    }

    /** `file` is the text of the file, if it can be opened. */
    method ParseSelfMaps(cached: bool, file: Option<string>, w: Widths, makedev: MakeDev)
      returns (r: seq<MapEntry>)
      modifies this
      ensures r == parserCache
      ensures parserCache == if cached && old(parserCache) != [] then old(parserCache)
                             else match file
                                  case None => []
                                  case Some(text) => ParseText(text, w, makedev)
    {
      hide ParseEntry;
      if cached && parserCache != [] {
        return parserCache;
      }
      parserCache := [];
      if file.None? {
        return parserCache;
      }
      var ifs := new StringStream(file.value);
      ghost var done: seq<string> := [];
      var line := ifs.Line('\n');
      while !ifs.failed
        invariant fresh(ifs) && parserCache == FilterMap(done, LineParser(w, makedev))
        invariant ifs.failed ==> Split(file.value, '\n') == done
        invariant !ifs.failed ==> Split(file.value, '\n') == done + ([line] + Split(ifs.rest, '\n'))
        decreases !ifs.failed, |ifs.rest|
      {
        FilterMapOneMore(done, line, LineParser(w, makedev));
        Regroup(done, [line], Split(ifs.rest, '\n'));
        done := done + [line];
        var entry := ParseLine(line, w, makedev);
        if entry.Some? {
          parserCache := parserCache + [entry.value];
        }
        line := ifs.Line('\n');
      }
      r := parserCache;
    }
  }

  /** A malformed line is dropped and changes nothing else. */
  lemma {:induction false} MalformedLineDropped(before: string, bad: string, after: string, w: Widths, makedev: MakeDev)
    requires Terminated(before, '\n') && '\n' !in bad
    requires ReadRange(bad, w).None? || ReadFile(ReadRange(bad, w).value.rest, w).None?
    ensures ParseText(before + (bad + ['\n'] + after), w, makedev) == ParseText(before + after, w, makedev)
    ensures ParseText(before + after, w, makedev) ==
            ParseText(before, w, makedev) + ParseText(after, w, makedev)
  {
    assert LineParser(w, makedev)(bad).None?;
    BadLineDropped(before, bad, after, LineParser(w, makedev));
    TextsAreIndependent(before, after, LineParser(w, makedev));
  }

  // ---------------------------------------------------------------------------
  // Printing lines and reading them back
  // ---------------------------------------------------------------------------

  predicate LegalRange(r: Range, w: Widths) {
    r.start < w.uintptr && r.end < w.uintptr && r.offset < w.uintptr && IsWord(r.perms)
  }

  predicate LegalFile(f: File, w: Widths) {
    INT_MIN <= f.major <= INT_MAX && INT_MIN <= f.minor <= INT_MAX && f.inode < w.ino
  }

  /** A path may contain spaces, but does not begin with one. */
  predicate LegalPath(path: string) {
    (path != "" ==> !IsSpace(path[0])) && '\n' !in path
  }

  predicate Legal(f: Fields, w: Widths) {
    LegalRange(f.range, w) && LegalFile(f.file, w) && LegalPath(f.pathname)
  }

  /** How a line is laid out: the leading zeros of its numbers, and the spaces in front of
      the path. */
  datatype Layout = Layout(start: nat, end: nat, offset: nat, major: nat, minor: nat, spaces: nat)

  predicate Fits(l: Layout, f: Fields) {
    f.pathname != "" ==> l.spaces > 0
  }

  function PrintRange(r: Range, l: Layout, rest: string): string {
    Padded(l.start, r.start, Hex) + (['-'] + (Padded(l.end, r.end, Hex) + (" " + (r.perms +
    (" " + (Padded(l.offset, r.offset, Hex) + rest))))))
  }

  function PrintFile(f: File, l: Layout, rest: string): string {
    " " + (Signed(l.major, f.major, Hex) + ([':'] + (Signed(l.minor, f.minor, Hex) +
    (" " + (Padded(0, f.inode, Dec) + rest)))))
  }

  function PrintPath(path: string, spaces: nat): string {
    seq(spaces, _ => ' ') + path
  }

  function Print(f: Fields, l: Layout): string {
    PrintRange(f.range, l, PrintFile(f.file, l, PrintPath(f.pathname, l.spaces)))
  }

  lemma {:induction false} RangePrinted(r: Range, l: Layout, w: Widths, rest: string)
    requires LegalRange(r, w) && EndsNumber(rest)
    ensures ReadRange(PrintRange(r, l, rest), w) == Some(Read(r, rest))
  {
    hide ReadUnsigned, ReadWord, ReadChar;
    var s4 := " " + (Padded(l.offset, r.offset, Hex) + rest);
    var s3 := " " + (r.perms + s4);
    var s2 := Padded(l.end, r.end, Hex) + s3;
    var s1 := ['-'] + s2;
    ReadUnsignedPrinted(l.start, r.start, Hex, w.uintptr, s1);
    ReadCharPrinted('-', s2);
    ReadUnsignedPrinted(l.end, r.end, Hex, w.uintptr, s3);
    NextWord(r.perms, s4);
    NextUnsigned(l.offset, r.offset, Hex, w.uintptr, rest);
  }

  lemma {:induction false} FilePrinted(f: File, l: Layout, w: Widths, rest: string)
    requires LegalFile(f, w) && EndsNumber(rest)
    ensures ReadFile(PrintFile(f, l, rest), w) == Some(Read(f, rest))
  {
    hide ReadUnsigned, ReadInt, ReadChar;
    var s3 := " " + (Padded(0, f.inode, Dec) + rest);
    var s2 := Signed(l.minor, f.minor, Hex) + s3;
    var s1 := [':'] + s2;
    NextInt(l.major, f.major, Hex, s1);
    ReadCharPrinted(':', s2);
    ReadIntPrinted(l.minor, f.minor, Hex, s3);
    NextUnsigned(0, f.inode, Dec, w.ino, rest);
  }

  lemma {:induction false} PathPrinted(path: string, spaces: nat)
    requires LegalPath(path) && (path != "" ==> spaces > 0)
    ensures ReadPath(PrintPath(path, spaces)) == path
    ensures EndsNumber(PrintPath(path, spaces))
  {
    SpanOfPrefix(seq(spaces, _ => ' '), path, Space);
  }

  /** Printing any entry and parsing the line gives the entry back, with or without a
      path, whatever the widths of the columns. */
  lemma {:induction false} PrintedLineParses(f: Fields, l: Layout, w: Widths)
    requires Legal(f, w) && Fits(l, f)
    ensures ParseFields(Print(f, l), w) == Some(f)
  {
    hide ReadRange, ReadFile, ReadPath;
    var s2 := PrintPath(f.pathname, l.spaces);
    PathPrinted(f.pathname, l.spaces);
    FilePrinted(f.file, l, w, s2);
    RangePrinted(f.range, l, w, PrintFile(f.file, l, s2));
  }

  /** The fields of an entry as they are printed. */
  function FieldsOf(e: MapEntry, major: int, minor: int): Fields {
    Fields(Range(e.addressStart, e.addressEnd, e.perms, e.offset), File(major, minor, e.inode), e.pathname)
  }

  /** Printing any entry and parsing the line gives the same entry, its device included. */
  lemma {:induction false} PrintedEntryRoundTrip(e: MapEntry, major: int, minor: int, l: Layout, w: Widths,
                                                 makedev: MakeDev)
    requires e.device == makedev(major, minor)
    requires Legal(FieldsOf(e, major, minor), w) && Fits(l, FieldsOf(e, major, minor))
    ensures ParseEntry(Print(FieldsOf(e, major, minor), l), w, makedev) == Some(e)
  {
    hide ParseFields, Print, Legal, Fits;
    PrintedLineParses(FieldsOf(e, major, minor), l, w);
  }

  lemma {:induction false} ParsedNumbersAreLegal(line: string, s: string, w: Widths)
    ensures var r := ReadRange(line, w); r.Some? ==> LegalRange(r.value.value, w)
    ensures var r := ReadFile(s, w); r.Some? ==> LegalFile(r.value.value, w)
  {
    hide ReadUnsigned, ReadInt, ReadWord, ReadChar;
  }

  lemma {:induction false} ParsedPathIsLegal(s: string)
    ensures LegalPath(ReadPath(s))
  {
    var t := SkipSpace(s);
    if t != "" {
      assert t[0] == s[Span(s, Space)];
      var line := GetLine(t, '\n').value.value;
      assert line != "" ==> line[0] == t[0];
    }
  }

  /** Whatever line the parser takes, a kernel could have written one with these fields,
      in any layout, and that parses to the same fields. */
  lemma {:induction false} ParsedLineIsPrintable(line: string, l: Layout, w: Widths)
    requires ParseFields(line, w).Some? && Fits(l, ParseFields(line, w).value)
    ensures Legal(ParseFields(line, w).value, w)
    ensures ParseFields(Print(ParseFields(line, w).value, l), w) == ParseFields(line, w)
  {
    var f := ParseFields(line, w).value;
    ParsedFieldsAreLegal(line, w);
    hide ParseFields, Print;
    PrintedLineParses(f, l, w);
  }

  lemma {:induction false} ParsedFieldsAreLegal(line: string, w: Widths)
    requires ParseFields(line, w).Some?
    ensures Legal(ParseFields(line, w).value, w)
  {
    hide ReadRange, ReadFile, ReadPath;
    var s1 := ReadRange(line, w).value.rest;
    ParsedNumbersAreLegal(line, s1, w);
    ParsedPathIsLegal(ReadFile(s1, w).value.rest);
  }

  // ---------------------------------------------------------------------------
  // Finding a library
  // ---------------------------------------------------------------------------

  predicate EndsWith(s: string, suffix: string) {
    |suffix| <= |s| && s[|s| - |suffix|..] == suffix
  }

  lemma {:induction false} EndsWithMeaning(s: string, suffix: string)
    ensures EndsWith(s, suffix) <==> exists front :: s == front + suffix
  {
    if EndsWith(s, suffix) {
      assert s == s[..|s| - |suffix|] + suffix;
    }
    if front :| s == front + suffix {
      assert s[|s| - |suffix|..] == suffix;
    }
  }

  /** `hookPLTByName`: the file in which the symbol is to be hooked, if the library is
      mapped at all. */
  method FindLibrary(maps: seq<MapEntry>, libName: string) returns (file: Option<(int, nat)>)
    ensures file.None? <==> forall k :: 0 <= k < |maps| ==> !EndsWith(maps[k].pathname, "/" + libName)
    ensures file.Some? ==>
              exists k :: 0 <= k < |maps| && EndsWith(maps[k].pathname, "/" + libName)
                          && file.value == (maps[k].device, maps[k].inode)
                          && forall j :: 0 <= j < k ==> !EndsWith(maps[j].pathname, "/" + libName)
  {
    for k := 0 to |maps|
      invariant forall j :: 0 <= j < k ==> !EndsWith(maps[j].pathname, "/" + libName)
    {
      if EndsWith(maps[k].pathname, "/" + libName) {
        return Some((maps[k].device, maps[k].inode));
      }
    }
    return None;
  }
}
