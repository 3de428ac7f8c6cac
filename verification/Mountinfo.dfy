/** `parseSelfMountinfo`: the lines of /proc/self/mountinfo, as laid out in section 3.5 of
  the Linux kernel's Documentation/filesystems/proc.rst. */
module Mountinfo {
  import opened Streams
  import opened MountOptions

  /** The numbering of devices, `makedev(major, minor)`; nothing is assumed about it. */
  type MakeDev = (int, int) -> int

  datatype MountEntry = MountEntry(
    mountId: int, parentId: int, device: int, root: string, mountPoint: string,
    mountOptions: Options, optionalFields: string,
    fsType: string, source: string, superOptions: Options)

  /** The fields of one line.  The parser reads them in three stages, and a line may be
      malformed in each. */
  datatype Ids = Ids(mountId: int, parentId: int, major: int, minor: int)
  datatype Paths = Paths(root: string, mountPoint: string, mountOptions: string)
  datatype Head = Head(ids: Ids, paths: Paths)
  datatype Last = Last(fsType: string, source: string, superOptions: string)
  datatype Fields = Fields(head: Head, optional: seq<string>, last: Last)

  function ReadIds(line: string): Option<Read<Ids>> {
    var Read(mountId, s1) :- ReadInt(line, Dec);
    var Read(parentId, s2) :- ReadInt(s1, Dec);
    var Read(major, s3) :- ReadInt(s2, Dec);
    var Read(_, s4) :- ReadChar(s3);
    var Read(minor, s5) :- ReadInt(s4, Dec);
    Some(Read(Ids(mountId, parentId, major, minor), s5))
  }

  function ReadPaths(s: string): Option<Read<Paths>> {
    var Read(root, s1) :- ReadWord(s);
    var Read(mountPoint, s2) :- ReadWord(s1);
    var Read(mountOptions, s3) :- ReadWord(s2);
    Some(Read(Paths(root, mountPoint, mountOptions), s3))
  }

  function ReadHead(line: string): Option<Read<Head>> {
    var Read(ids, s1) :- ReadIds(line);
    var Read(paths, s2) :- ReadPaths(s1);
    Some(Read(Head(ids, paths), s2))
  }

  /** The optional fields: any number of words up to a single hyphen. */
  function ReadOptional(s: string): Option<Read<seq<string>>>
    decreases |s|
  {
    var Read(field, s1) :- ReadWord(s);
    if field == "-" then Some(Read([], s1)) else
    var Read(fields, s2) :- ReadOptional(s1);
    Some(Read([field] + fields, s2))
  }

  function ReadLast(s: string): Option<Last> {
    var Read(fsType, s1) :- ReadWord(s);
    var Read(source, s2) :- ReadWord(s1);
    var Read(superOptions, _) :- ReadWord(s2);
    Some(Last(fsType, source, superOptions))
  }

  function ParseFields(line: string): Option<Fields> {
    var Read(head, s1) :- ReadHead(line);
    var Read(optional, s2) :- ReadOptional(s1);
    var last :- ReadLast(s2);
    Some(Fields(head, optional, last))
  }

  /** The optional fields are kept as one string, each behind a space. */
  function Spaced(fields: seq<string>): string {
    if fields == [] then "" else " " + fields[0] + Spaced(fields[1..])
  }

  function EntryOf(f: Fields, makedev: MakeDev): MountEntry {
    var Head(ids, paths) := f.head;
    MountEntry(ids.mountId, ids.parentId, makedev(ids.major, ids.minor),
               paths.root, paths.mountPoint, OptionsOf(paths.mountOptions), Spaced(f.optional),
               f.last.fsType, f.last.source, OptionsOf(f.last.superOptions))
  }

  function ParseEntry(line: string, makedev: MakeDev): Option<MountEntry> {
    var fields :- ParseFields(line);
    Some(EntryOf(fields, makedev))
  }

  function LineParser(makedev: MakeDev): string -> Option<MountEntry> {
    line => ParseEntry(line, makedev)
  }

  /** The entries of the well-formed lines, in order. */
  function ParseText(text: string, makedev: MakeDev): seq<MountEntry> {
    FilterMap(Split(text, '\n'), LineParser(makedev))
  }

  // ---------------------------------------------------------------------------
  // The parser
  // ---------------------------------------------------------------------------

  /** The first stage, on a stream that has not failed. */
  method ParseHead(iss: StringStream) returns (h: Head)
    requires !iss.failed
    modifies iss
    ensures iss.failed <==> ReadHead(old(iss.rest)).None?
    ensures !iss.failed ==> ReadHead(old(iss.rest)) == Some(Read(h, iss.rest))
  {
    var mountId := iss.Int(Dec);
    var parentId := iss.Int(Dec);
    var major := iss.Int(Dec);
    var colon := iss.Char();
    var minor := iss.Int(Dec);
    var root := iss.Word();
    var mountPoint := iss.Word();
    var mountOptions := iss.Word();
    h := Head(Ids(mountId, parentId, major, minor), Paths(root, mountPoint, mountOptions));
  }

  /** The second stage: the loop that collects the optional fields. */
  method ParseOptional(iss: StringStream) returns (optionalFields: string)
    requires !iss.failed
    modifies iss
    ensures iss.failed <==> ReadOptional(old(iss.rest)).None?
    ensures !iss.failed ==>
              var r := ReadOptional(old(iss.rest)).value;
              optionalFields == Spaced(r.value) && iss.rest == r.rest
  {
    optionalFields := "";
    ghost var taken: seq<string> := [];
    var field := iss.Word();
    AfterNothing(AfterField(field, iss.rest));
    while !iss.failed && field != "-"
      invariant optionalFields == Spaced(taken)
      invariant iss.failed ==> ReadOptional(old(iss.rest)).None?
      invariant !iss.failed ==> ReadOptional(old(iss.rest)) == After(taken, AfterField(field, iss.rest))
      decreases !iss.failed, |iss.rest|
    {
      SpacedOneMore(taken, field);
      AfterOneMore(taken, field, iss.rest);
      optionalFields := optionalFields + " " + field;
      taken := taken + [field];
      field := iss.Word();
    }
    assert taken + [] == taken;
  }

  /** What the second stage gives once it has read `field`. */
  function AfterField(field: string, rest: string): Option<Read<seq<string>>> {
    if field == "-" then Some(Read([], rest)) else After([field], ReadOptional(rest))
  }

  function After(taken: seq<string>, r: Option<Read<seq<string>>>): Option<Read<seq<string>>> {
    var Read(fields, rest) :- r;
    Some(Read(taken + fields, rest))
  }

  lemma {:induction false} AfterNothing(r: Option<Read<seq<string>>>)
    ensures After([], r) == r
  {
    if r.Some? {
      assert [] + r.value.value == r.value.value;
    }
  }

  lemma {:induction false} AfterOneMore(taken: seq<string>, field: string, rest: string)
    requires field != "-"
    ensures After(taken, AfterField(field, rest)) == After(taken + [field], ReadOptional(rest))
  {
    if ReadOptional(rest).Some? {
      Regroup(taken, [field], ReadOptional(rest).value.value);
    }
  }

  lemma {:induction false} SpacedOneMore(fields: seq<string>, field: string)
    ensures Spaced(fields + [field]) == Spaced(fields) + " " + field
  {
    if fields == [] {
      assert [field][1..] == [];
    } else {
      assert (fields + [field])[1..] == fields[1..] + [field];
      SpacedOneMore(fields[1..], field);
    }
  }

  /** The third stage. */
  method ParseLast(iss: StringStream) returns (l: Last)
    requires !iss.failed
    modifies iss
    ensures iss.failed <==> ReadLast(old(iss.rest)).None?
    ensures !iss.failed ==> ReadLast(old(iss.rest)) == Some(l)
  {
    var fsType := iss.Word();
    var source := iss.Word();
    var superOptions := iss.Word();
    l := Last(fsType, source, superOptions);
  }

  /** One turn of the line loop. */
  method ParseLine(line: string, makedev: MakeDev) returns (entry: Option<MountEntry>)
    ensures entry == ParseEntry(line, makedev)
  {
    var iss := new StringStream(line);
    var h := ParseHead(iss);
    if iss.failed { return None; }
    var optionalFields := ParseOptional(iss);
    if iss.failed { return None; }
    var l := ParseLast(iss);
    if iss.failed { return None; }
    var Head(ids, paths) := h;
    var mountOptions := ParseMountOptions(paths.mountOptions);
    var superOptions := ParseMountOptions(l.superOptions);
    entry := Some(MountEntry(ids.mountId, ids.parentId, makedev(ids.major, ids.minor),
                             paths.root, paths.mountPoint, mountOptions, optionalFields,
                             l.fsType, l.source, superOptions));
  }

  class MountinfoParser {
    var parserCache: seq<MountEntry>

    constructor ()
      ensures parserCache == []
    {
      parserCache := [];
    }

    /** `file` is the text of the file, if it can be opened. */
    method ParseSelfMountinfo(cached: bool, file: Option<string>, makedev: MakeDev)
      returns (r: seq<MountEntry>)
      modifies this
      ensures r == parserCache
      ensures parserCache == if cached && old(parserCache) != [] then old(parserCache)
                             else match file
                                  case None => []
                                  case Some(text) => ParseText(text, makedev)
    {
      hide ParseEntry;
      if cached && parserCache != [] {
        return parserCache;
      }
      parserCache := [];
      if file.None? {
        return parserCache;
      }
      var ifs := new StringStream(file.value);
      ghost var done: seq<string> := [];
      var line := ifs.Line('\n');
      while !ifs.failed
        invariant fresh(ifs) && parserCache == FilterMap(done, LineParser(makedev))
        invariant ifs.failed ==> Split(file.value, '\n') == done
        invariant !ifs.failed ==> Split(file.value, '\n') == done + ([line] + Split(ifs.rest, '\n'))
        decreases !ifs.failed, |ifs.rest|
      {
        FilterMapOneMore(done, line, LineParser(makedev));
        Regroup(done, [line], Split(ifs.rest, '\n'));
        done := done + [line];
        var entry := ParseLine(line, makedev);
        if entry.Some? {
          parserCache := parserCache + [entry.value];
        }
        line := ifs.Line('\n');
      }
      r := parserCache;
    }
  }

  // ---------------------------------------------------------------------------
  // Lines do not affect each other
  // ---------------------------------------------------------------------------

  /** A malformed line, at whichever stage it fails, is dropped and changes nothing else. */
  lemma {:induction false} MalformedLineDropped(before: string, bad: string, after: string, makedev: MakeDev)
    requires Terminated(before, '\n') && '\n' !in bad
    requires ReadHead(bad).None? || ReadOptional(ReadHead(bad).value.rest).None? ||
             ReadLast(ReadOptional(ReadHead(bad).value.rest).value.rest).None?
    ensures ParseText(before + (bad + ['\n'] + after), makedev) == ParseText(before + after, makedev)
    ensures ParseText(before + after, makedev) == ParseText(before, makedev) + ParseText(after, makedev)
  {
    assert LineParser(makedev)(bad).None?;
    BadLineDropped(before, bad, after, LineParser(makedev));
    TextsAreIndependent(before, after, LineParser(makedev));
  }

  // ---------------------------------------------------------------------------
  // Printing lines and reading them back
  // ---------------------------------------------------------------------------

  predicate IsInt(n: int) {
    INT_MIN <= n <= INT_MAX
  }

  predicate LegalHead(h: Head) {
    && IsInt(h.ids.mountId) && IsInt(h.ids.parentId) && IsInt(h.ids.major) && IsInt(h.ids.minor)
    && IsWord(h.paths.root) && IsWord(h.paths.mountPoint) && IsWord(h.paths.mountOptions)
  }

  predicate LegalOptional(fields: seq<string>) {
    forall k :: 0 <= k < |fields| ==> IsWord(fields[k]) && fields[k] != "-"
  }

  predicate LegalLast(l: Last) {
    IsWord(l.fsType) && IsWord(l.source) && IsWord(l.superOptions)
  }

  predicate Legal(f: Fields) {
    LegalHead(f.head) && LegalOptional(f.optional) && LegalLast(f.last)
  }

  function Number(n: int): string {
    Signed(0, n, Dec)
  }

  function PrintIds(ids: Ids, rest: string): string {
    Number(ids.mountId) + (" " + (Number(ids.parentId) + (" " + (Number(ids.major) + ([':'] +
    (Number(ids.minor) + rest))))))
  }

  function PrintPaths(paths: Paths, rest: string): string {
    " " + (paths.root + (" " + (paths.mountPoint + (" " + (paths.mountOptions + rest)))))
  }

  function PrintHead(h: Head, rest: string): string {
    PrintIds(h.ids, PrintPaths(h.paths, rest))
  }

  function PrintOptional(fields: seq<string>, rest: string): string {
    if fields == [] then " " + ("-" + rest) else " " + (fields[0] + PrintOptional(fields[1..], rest))
  }

  function PrintLast(l: Last): string {
    " " + (l.fsType + (" " + (l.source + (" " + (l.superOptions + "")))))
  }

  /** A line as the kernel writes it. */
  function Print(f: Fields): string {
    PrintHead(f.head, PrintOptional(f.optional, PrintLast(f.last)))
  }

  lemma {:induction false} IdsPrinted(ids: Ids, rest: string)
    requires IsInt(ids.mountId) && IsInt(ids.parentId) && IsInt(ids.major) && IsInt(ids.minor)
    requires EndsNumber(rest)
    ensures ReadIds(PrintIds(ids, rest)) == Some(Read(ids, rest))
  {
    hide ReadInt, ReadChar;
    var s4 := Number(ids.minor) + rest;
    var s3 := [':'] + s4;
    var s2 := " " + (Number(ids.major) + s3);
    var s1 := " " + (Number(ids.parentId) + s2);
    ReadIntPrinted(0, ids.mountId, Dec, s1);
    NextInt(0, ids.parentId, Dec, s2);
    NextInt(0, ids.major, Dec, s3);
    ReadCharPrinted(':', s4);
    ReadIntPrinted(0, ids.minor, Dec, rest);
  }

  lemma {:induction false} PathsPrinted(paths: Paths, rest: string)
    requires IsWord(paths.root) && IsWord(paths.mountPoint) && IsWord(paths.mountOptions)
    requires EndsWord(rest)
    ensures ReadPaths(PrintPaths(paths, rest)) == Some(Read(paths, rest))
  {
    hide ReadWord;
    var s2 := " " + (paths.mountOptions + rest);
    var s1 := " " + (paths.mountPoint + s2);
    NextWord(paths.root, s1);
    NextWord(paths.mountPoint, s2);
    NextWord(paths.mountOptions, rest);
  }

  lemma {:induction false} HeadPrinted(h: Head, rest: string)
    requires LegalHead(h) && EndsWord(rest)
    ensures ReadHead(PrintHead(h, rest)) == Some(Read(h, rest))
  {
    hide ReadIds, ReadPaths;
    PathsPrinted(h.paths, rest);
    IdsPrinted(h.ids, PrintPaths(h.paths, rest));
  }

  lemma {:induction false} OptionalStep(s: string, field: string, s1: string, fields: seq<string>, s2: string)
    requires ReadWord(s) == Some(Read(field, s1)) && field != "-"
    requires ReadOptional(s1) == Some(Read(fields, s2))
    ensures ReadOptional(s) == Some(Read([field] + fields, s2))
  {
  }

  lemma {:induction false} OptionalPrinted(fields: seq<string>, rest: string)
    requires LegalOptional(fields) && EndsWord(rest)
    ensures ReadOptional(PrintOptional(fields, rest)) == Some(Read(fields, rest))
    ensures EndsWord(PrintOptional(fields, rest))
  {
    hide ReadWord;
    if fields == [] {
      NextWord("-", rest);
    } else {
      var s1 := PrintOptional(fields[1..], rest);
      OptionalPrinted(fields[1..], rest);
      NextWord(fields[0], s1);
      OptionalStep(PrintOptional(fields, rest), fields[0], s1, fields[1..], rest);
      assert fields == [fields[0]] + fields[1..];
    }
  }

  lemma {:induction false} LastPrinted(l: Last)
    requires LegalLast(l)
    ensures ReadLast(PrintLast(l)) == Some(l)
  {
    hide ReadWord;
    var s2 := " " + (l.superOptions + "");
    var s1 := " " + (l.source + s2);
    NextWord(l.superOptions, "");
    NextWord(l.source, s2);
    NextWord(l.fsType, s1);
  }

  /** Printing any entry and parsing the line gives the entry back, with any number of
      optional fields. */
  lemma {:induction false} PrintedLineParses(f: Fields)
    requires Legal(f)
    ensures ParseFields(Print(f)) == Some(f)
  {
    hide ReadHead, ReadOptional, ReadLast, PrintHead, PrintOptional;
    LastPrinted(f.last);
    OptionalPrinted(f.optional, PrintLast(f.last));
    HeadPrinted(f.head, PrintOptional(f.optional, PrintLast(f.last)));
  }

  /** What is kept of the optional fields: the text between the mount options and the
      hyphen, from the space in front of the first field. */
  lemma {:induction false} SpacedIsText(fields: seq<string>)
    ensures Spaced(fields) == if fields == [] then "" else " " + Join(fields, ' ')
    ensures PrintOptional(fields, "") == Spaced(fields) + " -"
    decreases |fields|
  {
    if fields != [] {
      SpacedIsText(fields[1..]);
      if |fields| == 1 {
        assert fields[1..] == [];
      }
    }
  }

  /** The fields of an entry as they are printed, with its options in some order. */
  function FieldsOf(e: MountEntry, major: int, minor: int, optional: seq<string>,
                    mountOptions: seq<Item>, superOptions: seq<Item>): Fields
  {
    Fields(Head(Ids(e.mountId, e.parentId, major, minor),
                Paths(e.root, e.mountPoint, PrintOptions(mountOptions))),
           optional, Last(e.fsType, e.source, PrintOptions(superOptions)))
  }

  /** Printing any entry, with its options in any order and either style, and parsing the
      line gives the same entry, option maps included. */
  lemma {:induction false} PrintedEntryRoundTrip(e: MountEntry, major: int, minor: int, optional: seq<string>,
                                                 mountOptions: seq<Item>, superOptions: seq<Item>, makedev: MakeDev)
    requires e.device == makedev(major, minor) && e.optionalFields == Spaced(optional)
    requires Lists(mountOptions, e.mountOptions) && Lists(superOptions, e.superOptions)
    requires Legal(FieldsOf(e, major, minor, optional, mountOptions, superOptions))
    ensures ParseEntry(Print(FieldsOf(e, major, minor, optional, mountOptions, superOptions)), makedev) == Some(e)
  {
    hide ParseFields, Print, Legal, Lists, OptionsOf, PrintOptions;
    PrintedLineParses(FieldsOf(e, major, minor, optional, mountOptions, superOptions));
    OptionsRoundTrip(e.mountOptions, mountOptions);
    OptionsRoundTrip(e.superOptions, superOptions);
  }

  lemma {:induction false} ParsedOptionalIsLegal(s: string)
    ensures var r := ReadOptional(s); r.Some? ==> LegalOptional(r.value.value)
    decreases |s|
  {
    var w := ReadWord(s);
    if w.Some? && w.value.value != "-" {
      ParsedOptionalIsLegal(w.value.rest);
    }
  }

  lemma {:induction false} ParsedHeadIsLegal(line: string)
    ensures var r := ReadHead(line); r.Some? ==> LegalHead(r.value.value)
  {
    hide ReadInt, ReadChar, ReadWord;
  }

  lemma {:induction false} ParsedFieldsAreLegal(line: string)
    requires ParseFields(line).Some?
    ensures Legal(ParseFields(line).value)
  {
    hide ReadHead, ReadOptional, ReadWord;
    ParsedHeadIsLegal(line);
    ParsedOptionalIsLegal(ReadHead(line).value.rest);
  }

  /** The parser accepts nothing else: whatever line it takes, the fields it gives are
      those of a line that the kernel could have written, and that line parses the same. */
  lemma {:induction false} ParsedLineIsPrintable(line: string)
    requires ParseFields(line).Some?
    ensures Legal(ParseFields(line).value)
    ensures ParseFields(Print(ParseFields(line).value)) == ParseFields(line)
  {
    hide ParseFields, Print;
    var f := ParseFields(line).value;
    ParsedFieldsAreLegal(line);
    PrintedLineParses(f);
  }

  predicate AllLegalLines(fs: seq<Fields>) {
    forall k :: 0 <= k < |fs| ==> Legal(fs[k])
  }

  function PrintAll(fs: seq<Fields>): (lines: seq<string>)
    ensures |lines| == |fs| && forall k :: 0 <= k < |fs| ==> lines[k] == Print(fs[k])
  {
    if fs == [] then [] else PrintAll(fs[..|fs| - 1]) + [Print(fs[|fs| - 1])]
  }

  function Entries(fs: seq<Fields>, makedev: MakeDev): (entries: seq<MountEntry>)
    ensures |entries| == |fs| && forall k :: 0 <= k < |fs| ==> entries[k] == EntryOf(fs[k], makedev)
  {
    if fs == [] then [] else Entries(fs[..|fs| - 1], makedev) + [EntryOf(fs[|fs| - 1], makedev)]
  }

  lemma {:induction false} PrintedEntryParses(f: Fields, makedev: MakeDev)
    requires Legal(f)
    ensures LineParser(makedev)(Print(f)) == Some(EntryOf(f, makedev))
  {
    hide ParseFields, Print;
    PrintedLineParses(f);
  }

  lemma {:induction false} NoNewlineInNumber(n: int)
    ensures '\n' !in Number(n)
  {
    NatOfPadded(0, Abs(n), Dec);
    assert forall c :: c in Padded(0, Abs(n), Dec) ==> IsDigit(c, Dec);
  }

  lemma {:induction false} NoNewlineInOptional(fields: seq<string>, rest: string)
    requires LegalOptional(fields) && '\n' !in rest
    ensures '\n' !in PrintOptional(fields, rest)
  {
    if fields != [] {
      NoNewlineInOptional(fields[1..], rest);
    }
  }

  lemma {:induction false} NoNewlineInPrint(f: Fields)
    requires Legal(f)
    ensures '\n' !in Print(f)
  {
    assert '\n' !in PrintLast(f.last);
    NoNewlineInOptional(f.optional, PrintLast(f.last));
    NoNewlineInHead(f.head, PrintOptional(f.optional, PrintLast(f.last)));
    hide PrintHead, PrintOptional, PrintLast;
  }

  lemma {:induction false} NoNewlineInHead(h: Head, rest: string)
    requires LegalHead(h) && '\n' !in rest
    ensures '\n' !in PrintHead(h, rest)
  {
    hide Number;
    NoNewlineInNumber(h.ids.mountId);
    NoNewlineInNumber(h.ids.parentId);
    NoNewlineInNumber(h.ids.major);
    NoNewlineInNumber(h.ids.minor);
    assert '\n' !in PrintPaths(h.paths, rest);
    hide PrintPaths;
  }

  /** The text of a whole table of mounts parses to that table. */
  lemma {:induction false} PrintedTableParses(fs: seq<Fields>, makedev: MakeDev)
    requires AllLegalLines(fs)
    ensures ParseText(Unlines(PrintAll(fs)), makedev) == Entries(fs, makedev)
  {
    forall k | 0 <= k < |fs|
      ensures '\n' !in PrintAll(fs)[k]
    {
      NoNewlineInPrint(fs[k]);
    }
    hide ParseEntry, Print, EntryOf;
    SplitUnlines(PrintAll(fs));
    forall k | 0 <= k < |fs|
      ensures LineParser(makedev)(PrintAll(fs)[k]) == Some(Entries(fs, makedev)[k])
    {
      PrintedEntryParses(fs[k], makedev);
    }
    FilterMapOfAccepted(PrintAll(fs), LineParser(makedev), Entries(fs, makedev));
  }
}
