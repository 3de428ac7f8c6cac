/** `doRemount`: giving /data back the error behaviour of its superblock. */
module Remount {
  import opened Streams
  import opened MountOptions
  import opened Mountinfo

  const MS_RDONLY: bv32 := 1
  const MS_REMOUNT: bv32 := 32

  /** The rows of `mount_flags_procfs`. */
  datatype Row = NoSuid | NoDev | NoExec | NoAtime | NoDirAtime | RelAtime | NoSymFollow

  const TABLE := {NoSuid, NoDev, NoExec, NoAtime, NoDirAtime, RelAtime, NoSymFollow}

  function Name(row: Row): string {
    match row
    case NoSuid => "nosuid"
    case NoDev => "nodev"
    case NoExec => "noexec"
    case NoAtime => "noatime"
    case NoDirAtime => "nodiratime"
    case RelAtime => "relatime"
    case NoSymFollow => "nosymfollow"
  }

  function Bit(row: Row): bv32 {
    match row
    case NoSuid => 2
    case NoDev => 4
    case NoExec => 8
    case NoAtime => 1024
    case NoDirAtime => 2048
    case RelAtime => 0x20_0000
    case NoSymFollow => 256
  }

  /** The bits of no row, other than the one for remounting. */
  const OTHERS: bv32 := !(32 | 2 | 4 | 8 | 1024 | 2048 | 0x20_0000 | 256)

  /** The arguments of `mount` that are not null. */
  datatype MountCall = MountCall(target: string, flags: bv32, data: string)

  // ---------------------------------------------------------------------------
  // The flag word
  // ---------------------------------------------------------------------------

  predicate AnyBit(flags: bv32, mask: bv32) {
    flags & mask != 0
  }

  predicate Has(flags: bv32, row: Row) {
    AnyBit(flags, Bit(row))
  }

  function With(flags: bv32, row: Row): bv32 {
    flags | Bit(row)
  }

  /** The bit for remounting, and no bit outside the table. */
  predicate Plain(flags: bv32) {
    flags & MS_REMOUNT != 0 && flags & OTHERS == 0
  }

  predicate Wanted(options: Options, row: Row) {
    Name(row) in options
  }

  /** Whether a word carries the bits of exactly those rows of `done` that are options, the
      remount bit, and no other bit. */
  ghost predicate Carries(flags: bv32, options: Options, done: set<Row>) {
    Plain(flags) && forall row :: Has(flags, row) <==> row in done && Wanted(options, row)
  }

  lemma {:induction false} WithAddsOne(flags: bv32, row: Row, other: Row)
    requires Plain(flags)
    ensures Plain(With(flags, row))
    ensures Has(With(flags, row), other) <==> Has(flags, other) || other == row
  {
    OrBit(flags, Bit(row), Bit(other));
    OrBit(flags, Bit(row), MS_REMOUNT);
    OrBit(flags, Bit(row), OTHERS);
    BitsAreSeparate(row, other);
    hide Bit;
  }

  lemma {:induction false} BitsAreSeparate(row: Row, other: Row)
    ensures Bit(row) != 0 && Bit(row) & MS_REMOUNT == 0 && Bit(row) & OTHERS == 0
    ensures row != other ==> Bit(row) & Bit(other) == 0
  {
  }

  lemma {:induction false} OrBit(flags: bv32, bit: bv32, mask: bv32)
    ensures bit & mask == 0 ==> (flags | bit) & mask == flags & mask
    ensures mask == bit != 0 ==> (flags | bit) & mask != 0
  {
  }

  /** One more row of the table. */
  lemma {:induction false} CarriesOneMore(flags: bv32, options: Options, done: set<Row>, row: Row)
    requires Carries(flags, options, done) && row !in done
    ensures Carries(if Wanted(options, row) then With(flags, row) else flags, options, done + {row})
  {
    hide Has, With, Plain, Wanted;
    if Wanted(options, row) {
      WithAddsOne(flags, row, row);
      forall r: Row
        ensures Has(With(flags, row), r) <==> r in done + {row} && Wanted(options, r)
      {
        WithAddsOne(flags, row, r);
      }
    }
  }

  lemma {:induction false} SameWord(a: bv32, b: bv32)
    requires Plain(a) && Plain(b)
    requires (AnyBit(a, 2) <==> AnyBit(b, 2)) && (AnyBit(a, 4) <==> AnyBit(b, 4))
    requires (AnyBit(a, 8) <==> AnyBit(b, 8)) && (AnyBit(a, 1024) <==> AnyBit(b, 1024))
    requires (AnyBit(a, 2048) <==> AnyBit(b, 2048)) && (AnyBit(a, 0x20_0000) <==> AnyBit(b, 0x20_0000))
    requires AnyBit(a, 256) <==> AnyBit(b, 256)
    ensures a == b
  {
  }

  lemma {:induction false} SameRows(a: bv32, b: bv32)
    requires Plain(a) && Plain(b) && forall row :: Has(a, row) <==> Has(b, row)
    ensures a == b
  {
    hide AnyBit, Plain;
    assert Bit(NoSuid) == 2 && Bit(NoDev) == 4 && Bit(NoExec) == 8 && Bit(NoAtime) == 1024;
    assert Bit(NoDirAtime) == 2048 && Bit(RelAtime) == 0x20_0000 && Bit(NoSymFollow) == 256;
    forall row: Row
      ensures AnyBit(a, Bit(row)) <==> AnyBit(b, Bit(row))
    {
      assert Has(a, row) <==> Has(b, row);
    }
    SameWord(a, b);
  }

  lemma {:induction false} CarriesOnlyOne(a: bv32, b: bv32, options: Options, done: set<Row>)
    requires Carries(a, options, done) && Carries(b, options, done)
    ensures a == b
  {
    hide Has, Wanted, Plain;
    SameRows(a, b);
  }

  /** The word after the rows of a list. */
  function WordOf(options: Options, rows: seq<Row>): bv32 {
    if rows == [] then MS_REMOUNT else
    var flags, row := WordOf(options, rows[..|rows| - 1]), rows[|rows| - 1];
    if Wanted(options, row) then With(flags, row) else flags
  }

  function Elements(rows: seq<Row>): set<Row> {
    set row | row in rows
  }

  predicate Distinct(rows: seq<Row>) {
    forall i, j :: 0 <= i < j < |rows| ==> rows[i] != rows[j]
  }

  lemma {:induction false} WordCarries(options: Options, rows: seq<Row>)
    requires Distinct(rows)
    ensures Carries(WordOf(options, rows), options, Elements(rows))
    decreases |rows|
  {
    hide Has, With, Wanted, Carries;
    if rows == [] {
      CarriesNothing(options);
      assert Elements(rows) == {};
    } else {
      var front, row := rows[..|rows| - 1], rows[|rows| - 1];
      WordCarries(options, front);
      CarriesOneMore(WordOf(options, front), options, Elements(front), row);
      assert Elements(rows) == Elements(front) + {row};
    }
  }

  lemma {:induction false} CarriesNothing(options: Options)
    ensures Carries(MS_REMOUNT, options, {})
  {
    hide Wanted;
  }

  /** In whatever order the rows come, the word is the same: a row's bit is set exactly if
      its option is present, the remount bit always, and no other bit ever, in particular
      not the one for read-only. */
  lemma {:induction false} WordOfAnyOrder(options: Options, rows: seq<Row>)
    requires Distinct(rows) && Elements(rows) == TABLE
    ensures var flags := WordOf(options, rows);
            && flags & MS_REMOUNT != 0 && flags & OTHERS == 0 && flags & MS_RDONLY == 0
            && (forall row: Row :: flags & Bit(row) != 0 <==> Name(row) in options)
            && flags == FlagWord(options)
  {
    hide WordOf, Elements, Carries;
    var flags := WordOf(options, rows);
    WordCarries(options, rows);
    FlagWordCarries(options);
    CarriesOnlyOne(flags, FlagWord(options), options, TABLE);
    CarriedBits(flags, options);
  }

  lemma {:induction false} CarriedBits(flags: bv32, options: Options)
    requires Carries(flags, options, TABLE)
    ensures flags & MS_REMOUNT != 0 && flags & OTHERS == 0 && flags & MS_RDONLY == 0
    ensures forall row: Row :: flags & Bit(row) != 0 <==> Name(row) in options
  {
    hide Name, Bit, Plain;
    assert flags & MS_REMOUNT != 0 && flags & OTHERS == 0 && flags & MS_RDONLY == 0 by { PlainBits(flags); }
    forall row: Row
      ensures flags & Bit(row) != 0 <==> Name(row) in options
    {
      EveryRow(row);
      assert Has(flags, row) <==> row in TABLE && Wanted(options, row);
    }
  }

  lemma {:induction false} EveryRow(row: Row)
    ensures row in TABLE
  {
    match row
    case _ =>
  }

  lemma {:induction false} PlainBits(flags: bv32)
    requires Plain(flags)
    ensures flags & MS_REMOUNT != 0 && flags & OTHERS == 0 && flags & MS_RDONLY == 0
  {
  }

  const ROWS := [NoSuid, NoDev, NoExec, NoAtime, NoDirAtime, RelAtime, NoSymFollow]

  function FlagWord(options: Options): bv32 {
    WordOf(options, ROWS)
  }

  /** The loop over the unordered table: its rows may come in any order. */
  method BuildFlags(options: Options) returns (flags: bv32)
    ensures flags == FlagWord(options)
  {
    hide Carries, FlagWord, Has, Name, Bit, WordOf;
    flags := MS_REMOUNT;
    CarriesNothing(options);
    var left := TABLE;
    assert TABLE - left == {};
    while left != {}
      invariant left <= TABLE && Carries(flags, options, TABLE - left)
      decreases left
    {
      var row :| row in left;
      CarriesOneMore(flags, options, TABLE - left, row);
      assert (TABLE - left) + {row} == TABLE - (left - {row});
      if Name(row) in options {
        flags := flags | Bit(row);
      }
      left := left - {row};
    }
    assert TABLE - left == TABLE;
    FlagWordCarries(options);
    CarriesOnlyOne(flags, FlagWord(options), options, TABLE);
  }

  lemma {:induction false} FlagWordCarries(options: Options)
    ensures Carries(FlagWord(options), options, TABLE)
  {
    hide Carries, WordOf;
    assert Elements(ROWS) == TABLE;
    WordCarries(options, ROWS);
  }

  // ---------------------------------------------------------------------------
  // The pass
  // ---------------------------------------------------------------------------

  /** The error behaviours that an ext superblock may name. */
  datatype Behaviour = Continue | RemountReadOnly | Panic {
    function Text(): (text: string)
      ensures text != "" && ',' !in text && '=' !in text && '\n' !in text
    {
      match this
      case Continue => "continue"
      case RemountReadOnly => "remount-ro"
      case Panic => "panic"
    }
  }

  /** Reading the behaviour from the superblock of a file system of some type on a device. */
  type SuperblockErrors = (string, string) -> Option<Behaviour>

  /** The first entry that is mounted at a path. */
  function FirstAt(mounts: seq<MountEntry>, path: string): (first: Option<nat>)
    ensures first.Some? ==> first.value < |mounts| && mounts[first.value].mountPoint == path
    ensures forall k :: 0 <= k < (if first.Some? then first.value else |mounts|) ==> mounts[k].mountPoint != path
  {
    if mounts == [] then None else
    var before := FirstAt(mounts[..|mounts| - 1], path);
    if before.Some? then before
    else if mounts[|mounts| - 1].mountPoint == path then Some(|mounts| - 1) else None
  }

  /** The behaviour to which an entry has to be changed back, if it has to be. */
  function ChangeTo(mount: MountEntry, sbErrors: SuperblockErrors): Option<string> {
    if "errors" !in mount.superOptions then None else
    var sb :- sbErrors(mount.fsType, mount.source);
    if mount.superOptions["errors"] == sb.Text() then None else Some(sb.Text())
  }

  function CallFor(mounts: seq<MountEntry>, sbErrors: SuperblockErrors): Option<MountCall> {
    var first :- FirstAt(mounts, "/data");
    var sb :- ChangeTo(mounts[first], sbErrors);
    Some(MountCall("/data", FlagWord(mounts[first].mountOptions), "errors=" + sb))
  }

  method DoRemount(mounts: seq<MountEntry>, sbErrors: SuperblockErrors) returns (call: Option<MountCall>)
    ensures call == CallFor(mounts, sbErrors)
    ensures call.Some? ==>
              exists i: nat :: IsFirst(mounts, i, "/data") && Differs(mounts[i], sbErrors)
                               && call.value.target == "/data"
                               && Carrying(call.value.flags, mounts[i].mountOptions)
  {
    hide FlagWord, Carrying;
    call := None;
    for i := 0 to |mounts|
      invariant call.None? && forall k :: 0 <= k < i ==> mounts[k].mountPoint != "/data"
    {
      var mount := mounts[i];
      if mount.mountPoint == "/data" {
        assert FirstAt(mounts, "/data") == Some(i);
        if "errors" !in mount.superOptions {
          break;
        }
        var sb := sbErrors(mount.fsType, mount.source);
        if sb.None? || mount.superOptions["errors"] == sb.value.Text() {
          break;
        }
        var flags := BuildFlags(mount.mountOptions);
        call := Some(MountCall("/data", flags, "errors=" + sb.value.Text()));
        WordBits(mount.mountOptions);
        assert IsFirst(mounts, i, "/data") && Differs(mounts[i], sbErrors);
        break;
      }
    }
  }

  /** The error behaviour that the mount names is not that of its superblock. */
  predicate Differs(mount: MountEntry, sbErrors: SuperblockErrors) {
    var sb := sbErrors(mount.fsType, mount.source);
    "errors" in mount.superOptions && sb.Some? && mount.superOptions["errors"] != sb.value.Text()
  }

  predicate IsFirst(mounts: seq<MountEntry>, i: nat, path: string) {
    i < |mounts| && mounts[i].mountPoint == path && forall k :: 0 <= k < i ==> mounts[k].mountPoint != path
  }

  /** A call is made if and only if the first entry for /data differs from its superblock. */
  lemma {:induction false} CallIffDiffers(mounts: seq<MountEntry>, sbErrors: SuperblockErrors)
    ensures CallFor(mounts, sbErrors).Some? <==>
            exists i: nat :: IsFirst(mounts, i, "/data") && Differs(mounts[i], sbErrors)
  {
    hide FlagWord, FirstAt;
    var first := FirstAt(mounts, "/data");
    if first.Some? {
      assert IsFirst(mounts, first.value, "/data");
    }
    forall i: nat | IsFirst(mounts, i, "/data")
      ensures first == Some(i)
    {
    }
  }

  /** The flag word that mount options stand for, bit by bit. */
  predicate Carrying(flags: bv32, options: Options) {
    && flags & 32 != 0
    && (flags & 2 != 0 <==> "nosuid" in options)
    && (flags & 4 != 0 <==> "nodev" in options)
    && (flags & 8 != 0 <==> "noexec" in options)
    && (flags & 1024 != 0 <==> "noatime" in options)
    && (flags & 2048 != 0 <==> "nodiratime" in options)
    && (flags & 0x20_0000 != 0 <==> "relatime" in options)
    && (flags & 256 != 0 <==> "nosymfollow" in options)
  }

  /** What the call carries: the mount options that the first entry for /data has now, and
      the error behaviour of its superblock. */
  lemma {:induction false} CallCarriesOptions(mounts: seq<MountEntry>, sbErrors: SuperblockErrors, i: nat)
    requires IsFirst(mounts, i, "/data") && CallFor(mounts, sbErrors).Some?
    ensures var call := CallFor(mounts, sbErrors).value;
            call.target == "/data" && Carrying(call.flags, mounts[i].mountOptions)
    ensures var sb := sbErrors(mounts[i].fsType, mounts[i].source);
            sb.Some? && CallFor(mounts, sbErrors).value.data ==
                        match sb.value
                        case Continue => "errors=continue"
                        case RemountReadOnly => "errors=remount-ro"
                        case Panic => "errors=panic"
  {
    hide FlagWord, FirstAt, Carrying;
    assert FirstAt(mounts, "/data") == Some(i);
    WordBits(mounts[i].mountOptions);
  }

  lemma {:induction false} WordBits(options: Options)
    ensures Carrying(FlagWord(options), options)
  {
    hide FlagWord;
    FlagWordCarries(options);
    CarriedBits(FlagWord(options), options);
    hide Carries;
    assert Bit(NoSuid) == 2 && Bit(NoDev) == 4 && Bit(NoExec) == 8 && Bit(NoAtime) == 1024;
    assert Bit(NoDirAtime) == 2048 && Bit(RelAtime) == 0x20_0000 && Bit(NoSymFollow) == 256;
  }

  /** Only the first entry for /data decides, even if the file system there is covered by
      another one that would need the change. */
  lemma {:induction false} FirstEntryDecides(before: seq<MountEntry>, mount: MountEntry, later: seq<MountEntry>,
                                             sbErrors: SuperblockErrors)
    requires mount.mountPoint == "/data"
    requires forall k :: 0 <= k < |before| ==> before[k].mountPoint != "/data"
    ensures CallFor(before + [mount] + later, sbErrors) == CallFor([mount], sbErrors)
  {
    hide FlagWord, FirstAt;
    var mounts := before + [mount] + later;
    var first, only := FirstAt(mounts, "/data"), FirstAt([mount], "/data");
    assert mounts[|before|] == mount && [mount][0] == mount;
    assert forall k :: 0 <= k < |before| ==> mounts[k] == before[k];
    assert first == Some(|before|) && only == Some(0);
  }

  // ---------------------------------------------------------------------------
  // What the call does
  // ---------------------------------------------------------------------------

  function RowNames(): set<string> {
    set row: Row | row in TABLE :: Name(row)
  }

  /** The options of the table that a flag word asks for. */
  function NamedBy(flags: bv32): set<string> {
    set row: Row | row in TABLE && Has(flags, row) :: Name(row)
  }

  /** The mount options after the kernel has followed a flag word: those of the table are
      replaced, and so is the one of `ro` and `rw`. */
  function OptionsAfter(options: Options, flags: bv32): set<string> {
    options.Keys - RowNames() - {"ro", "rw"} + NamedBy(flags) + {if AnyBit(flags, MS_RDONLY) then "ro" else "rw"}
  }

  lemma {:induction false} NamedByFlagWord(options: Options)
    ensures NamedBy(FlagWord(options)) == options.Keys * RowNames()
    ensures !AnyBit(FlagWord(options), MS_RDONLY)
  {
    hide FlagWord, Name;
    var flags := FlagWord(options);
    FlagWordCarries(options);
    PlainBits(flags);
    hide Has, AnyBit, Plain;
  }

  lemma {:induction false} NoRowIsAccessMode(row: Row)
    ensures Name(row) != "ro" && Name(row) != "rw"
  {
    assert |Name(row)| > 2;
  }

  /** The remount is meant to change the error behaviour only.  It does keep the mount
      options exactly if /data is mounted for writing: the word has no bit for read-only. */
  lemma {:induction false} OptionsKeptIff(options: Options)
    ensures OptionsAfter(options, FlagWord(options)) == options.Keys <==> "rw" in options && "ro" !in options
  {
    hide FlagWord, Name, NamedBy;
    NamedByFlagWord(options);
    forall row: Row
      ensures Name(row) != "ro" && Name(row) != "rw"
    {
      NoRowIsAccessMode(row);
    }
    assert "ro" !in RowNames() && "rw" !in RowNames();
    hide AnyBit, RowNames;
    var after := OptionsAfter(options, FlagWord(options));
    assert after == options.Keys - {"ro", "rw"} + {"rw"};
  }

  /** Once the superblock's behaviour has been taken over, the pass has nothing left to do. */
  lemma {:induction false} RemountSettles(mounts: seq<MountEntry>, sbErrors: SuperblockErrors, i: nat,
                                          after: MountEntry)
    requires CallFor(mounts, sbErrors).Some? && FirstAt(mounts, "/data") == Some(i)
    requires after.mountPoint == "/data" && after.fsType == mounts[i].fsType && after.source == mounts[i].source
    requires after.superOptions == mounts[i].superOptions + OptionsOf(CallFor(mounts, sbErrors).value.data)
    ensures CallFor(mounts[i := after], sbErrors).None?
  {
    hide FlagWord, OptionsOf, Behaviour.Text, FirstAt;
    var sb := sbErrors(mounts[i].fsType, mounts[i].source).value.Text();
    var item := Item("errors", sb, false);
    SingleOption(item);
    assert item.Text() == "errors=" + sb;
    assert after.superOptions["errors"] == sb;
    var mounts' := mounts[i := after];
    assert FirstAt(mounts', "/data") == Some(i) by {
      var first := FirstAt(mounts', "/data");
      assert mounts'[i].mountPoint == "/data";
      assert forall k :: 0 <= k < i ==> mounts'[k].mountPoint != "/data";
    }
  }

  lemma {:induction false} SingleOption(item: Item)
    requires item.Legal()
    ensures OptionsOf(item.Text()) == map[item.key := item.value]
  {
    ItemToken(map[], item);
    var text := item.Text();
    assert Join([text], ',') == text;
    SplitJoined([text], ',');
    FoldOneMore([], text);
    assert [] + [text] == [text];
  }
}
