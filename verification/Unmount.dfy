/** `doUnmount`: which mounts are to go, and the pass that unmounts them. */
module Unmount {
  import opened Streams
  import opened MountOptions
  import opened Mountinfo
  import opened MountForest

  const MOUNT_DIRS: set<string> := {"/data/adb", "/debug_ramdisk"}
  const FS_NAMES: set<string> := {"KSU", "APatch", "magisk", "worker"}
  const LAYERS: set<string> := {"lowerdir", "upperdir", "workdir"}

  // ---------------------------------------------------------------------------
  // The true root of a mount
  // ---------------------------------------------------------------------------

  /** Where the root of a device is mounted: its last entry with root `/`. */
  function LastRootMount(mounts: seq<MountEntry>, device: int): Option<string> {
    if mounts == [] then None else
    var last := mounts[|mounts| - 1];
    if last.root == "/" && last.device == device then Some(last.mountPoint)
    else LastRootMount(mounts[..|mounts| - 1], device)
  }

  function TrueRoot(mounts: seq<MountEntry>, e: MountEntry): string {
    match LastRootMount(mounts, e.device)
    case Some(mountRoot) => if mountRoot != "/" then mountRoot + e.root else e.root
    case None => e.root
  }

  /** `mountinfo_root_resolver` */
  class RootResolver {
    var deviceMountMap: map<int, string>

    /** The map answers as the search does, for every device. */
    ghost predicate Indexes(mounts: seq<MountEntry>)
      reads this
    {
      forall d :: LastRootMount(mounts, d) == if d in deviceMountMap then Some(deviceMountMap[d]) else None
    }

    constructor (mounts: seq<MountEntry>)
      ensures Indexes(mounts)
    {
      deviceMountMap := map[];
      new;
      for i := 0 to |mounts|
        invariant Indexes(mounts[..i])
      {
        assert mounts[..i + 1][..i] == mounts[..i];
        if mounts[i].root == "/" {
          deviceMountMap := deviceMountMap[mounts[i].device := mounts[i].mountPoint];
        }
      }
      assert mounts[..|mounts|] == mounts;
    }

    function ResolveRootOf(e: MountEntry): (r: string)
      reads this
      ensures forall mounts :: Indexes(mounts) ==> r == TrueRoot(mounts, e)
      ensures forall mounts, path :: Indexes(mounts) && FoundAt(mounts, e, path) ==> r == path
    {
      FoundIsTrueRoot(e);
      if e.device in deviceMountMap then
        var mountRoot := deviceMountMap[e.device];
        if mountRoot != "/" then mountRoot + e.root else e.root
      else e.root
    }
  }

  // ---------------------------------------------------------------------------
  // The targets
  // ---------------------------------------------------------------------------

  /** `starts_with`: a prefix of the text, not of the path components. */
  predicate StartsWith(s: string, prefix: string) {
    prefix <= s
  }

  /** The mount comes from or goes to the directory, or is an overlay with a layer in it. */
  predicate Touches(trueRoot: string, e: MountEntry, dir: string) {
    || StartsWith(trueRoot, dir)
    || StartsWith(e.mountPoint, dir)
    || (e.fsType == "overlay" &&
        exists layer :: layer in LAYERS && layer in e.superOptions && StartsWith(e.superOptions[layer], dir))
  }

  predicate IsTarget(mounts: seq<MountEntry>, e: MountEntry) {
    || (exists dir :: dir in MOUNT_DIRS && Touches(TrueRoot(mounts, e), e, dir))
    || ((e.fsType == "overlay" || e.fsType == "tmpfs") && e.source in FS_NAMES)
  }

  // What the verdict means, entry by entry

  predicate ShowsRoot(x: MountEntry, device: int) {
    x.root == "/" && x.device == device
  }

  /** Entry `i` is the last one that shows the root of the device. */
  predicate LastShown(mounts: seq<MountEntry>, i: nat, device: int) {
    && i < |mounts| && ShowsRoot(mounts[i], device)
    && forall k :: i < k < |mounts| ==> !ShowsRoot(mounts[k], device)
  }

  /** The path under which a mount's root is found: below the place where the root of its
      device is mounted, if there is one and it is not `/` itself. */
  ghost predicate FoundAt(mounts: seq<MountEntry>, e: MountEntry, path: string) {
    || (exists i: nat :: LastShown(mounts, i, e.device) && mounts[i].mountPoint != "/"
                         && path == mounts[i].mountPoint + e.root)
    || (exists i: nat :: LastShown(mounts, i, e.device) && mounts[i].mountPoint == "/" && path == e.root)
    || ((forall k :: 0 <= k < |mounts| ==> !ShowsRoot(mounts[k], e.device)) && path == e.root)
  }

  lemma {:induction false} LastShownIsFound(mounts: seq<MountEntry>, i: nat, device: int)
    requires LastShown(mounts, i, device)
    ensures LastRootMount(mounts, device) == Some(mounts[i].mountPoint)
    decreases |mounts|
  {
    if i < |mounts| - 1 {
      assert !ShowsRoot(mounts[|mounts| - 1], device);
      LastShownIsFound(mounts[..|mounts| - 1], i, device);
    }
  }

  lemma {:induction false} NoneShownNoneFound(mounts: seq<MountEntry>, device: int)
    requires forall k :: 0 <= k < |mounts| ==> !ShowsRoot(mounts[k], device)
    ensures LastRootMount(mounts, device).None?
    decreases |mounts|
  {
    if mounts != [] {
      assert !ShowsRoot(mounts[|mounts| - 1], device);
      NoneShownNoneFound(mounts[..|mounts| - 1], device);
    }
  }

  lemma {:induction false} TrueRootIsFound(mounts: seq<MountEntry>, e: MountEntry, path: string)
    requires FoundAt(mounts, e, path)
    ensures TrueRoot(mounts, e) == path
  {
    hide LastRootMount;
    if i: nat :| LastShown(mounts, i, e.device) {
      LastShownIsFound(mounts, i, e.device);
    } else {
      NoneShownNoneFound(mounts, e.device);
    }
    forall j: nat | LastShown(mounts, j, e.device)
      ensures LastRootMount(mounts, e.device) == Some(mounts[j].mountPoint)
    {
      LastShownIsFound(mounts, j, e.device);
    }
  }

  lemma {:induction false} FoundIsTrueRoot(e: MountEntry)
    ensures forall mounts, path :: FoundAt(mounts, e, path) ==> TrueRoot(mounts, e) == path
  {
    forall mounts, path | FoundAt(mounts, e, path)
      ensures TrueRoot(mounts, e) == path
    {
      TrueRootIsFound(mounts, e, path);
    }
  }

  /** The verdict, spelled out for a mount whose root is found at `path`. */
  predicate ToGo(path: string, e: MountEntry) {
    || "/data/adb" <= path || "/debug_ramdisk" <= path
    || "/data/adb" <= e.mountPoint || "/debug_ramdisk" <= e.mountPoint
    || (e.fsType == "overlay" && "lowerdir" in e.superOptions && InMountDir(e.superOptions["lowerdir"]))
    || (e.fsType == "overlay" && "upperdir" in e.superOptions && InMountDir(e.superOptions["upperdir"]))
    || (e.fsType == "overlay" && "workdir" in e.superOptions && InMountDir(e.superOptions["workdir"]))
    || ((e.fsType == "overlay" || e.fsType == "tmpfs") &&
        (e.source == "KSU" || e.source == "APatch" || e.source == "magisk" || e.source == "worker"))
  }

  predicate InMountDir(dir: string) {
    "/data/adb" <= dir || "/debug_ramdisk" <= dir
  }

  lemma {:induction false} TouchesSome(trueRoot: string, e: MountEntry)
    ensures (exists dir :: dir in MOUNT_DIRS && Touches(trueRoot, e, dir)) <==>
            Touches(trueRoot, e, "/data/adb") || Touches(trueRoot, e, "/debug_ramdisk")
  {
    hide Touches;
  }

  lemma {:induction false} TouchesMeans(trueRoot: string, e: MountEntry, dir: string)
    ensures Touches(trueRoot, e, dir) <==>
            || dir <= trueRoot || dir <= e.mountPoint
            || (e.fsType == "overlay" && "lowerdir" in e.superOptions && dir <= e.superOptions["lowerdir"])
            || (e.fsType == "overlay" && "upperdir" in e.superOptions && dir <= e.superOptions["upperdir"])
            || (e.fsType == "overlay" && "workdir" in e.superOptions && dir <= e.superOptions["workdir"])
  {
    assert "lowerdir" in LAYERS && "upperdir" in LAYERS && "workdir" in LAYERS;
  }

  lemma {:induction false} TargetIsToGo(mounts: seq<MountEntry>, e: MountEntry, path: string)
    requires FoundAt(mounts, e, path)
    ensures IsTarget(mounts, e) <==> ToGo(path, e)
  {
    hide FoundAt, TrueRoot, Touches;
    TrueRootIsFound(mounts, e, path);
    TouchesSome(path, e);
    TouchesMeans(path, e, "/data/adb");
    TouchesMeans(path, e, "/debug_ramdisk");
  }

  /** The directories may be taken in any order. */
  method ShouldUnmount(mount: MountEntry, rootResolver: RootResolver, ghost mounts: seq<MountEntry>)
    returns (r: bool)
    requires rootResolver.Indexes(mounts)
    ensures r == IsTarget(mounts, mount)
    ensures forall path :: FoundAt(mounts, mount, path) ==> r == ToGo(path, mount)
  {
    forall path | FoundAt(mounts, mount, path)
      ensures IsTarget(mounts, mount) <==> ToGo(path, mount)
    {
      TargetIsToGo(mounts, mount, path);
    }
    hide ToGo, FoundAt;
    var trueRoot := rootResolver.ResolveRootOf(mount);
    var options := mount.superOptions;
    var remaining := MOUNT_DIRS;
    while remaining != {}
      invariant remaining <= MOUNT_DIRS
      invariant forall dir :: dir in MOUNT_DIRS && dir !in remaining ==> !Touches(trueRoot, mount, dir)
      decreases remaining
    {
      var dir :| dir in remaining;
      remaining := remaining - {dir};
      if StartsWith(trueRoot, dir) || StartsWith(mount.mountPoint, dir) {
        return true;
      }
      if mount.fsType == "overlay" {
        if "lowerdir" in options && StartsWith(options["lowerdir"], dir) { return true; }
        if "upperdir" in options && StartsWith(options["upperdir"], dir) { return true; }
        if "workdir" in options && StartsWith(options["workdir"], dir) { return true; }
      }
    }
    return (mount.fsType == "overlay" || mount.fsType == "tmpfs") && mount.source in FS_NAMES;
  }

  lemma {:induction false} LastRootMountAppend(a: seq<MountEntry>, b: seq<MountEntry>, device: int)
    ensures LastRootMount(a + b, device) ==
            if LastRootMount(b, device).Some? then LastRootMount(b, device) else LastRootMount(a, device)
    decreases |b|
  {
    if b == [] {
      assert a + b == a;
    } else {
      assert (a + b)[..|a + b| - 1] == a + b[..|b| - 1];
      LastRootMountAppend(a, b[..|b| - 1], device);
    }
  }

  /** Entries that do not show the root of their device never affect the verdict on
      another entry, wherever they are inserted. */
  lemma {:induction false} NonRootEntriesIrrelevant(before: seq<MountEntry>, x: MountEntry, after: seq<MountEntry>,
                                                    e: MountEntry)
    requires x.root != "/"
    ensures IsTarget(before + [x] + after, e) <==> IsTarget(before + after, e)
  {
    LastRootMountAppend(before + [x], after, e.device);
    LastRootMountAppend(before, [x], e.device);
    assert [x][..0] == [];
    LastRootMountAppend(before, after, e.device);
    assert TrueRoot(before + [x] + after, e) == TrueRoot(before + after, e);
  }

  // ---------------------------------------------------------------------------
  // The pass
  // ---------------------------------------------------------------------------

  /** The path of entry `k`, if it is a target. */
  function PathIfTarget(mounts: seq<MountEntry>, k: nat): (path: seq<string>)
    requires k < |mounts|
    ensures |path| <= 1
  {
    if IsTarget(mounts, mounts[k]) then [mounts[k].mountPoint] else []
  }

  /** The paths passed to `umount2` when the pass has gone back to entry `from`. */
  function CallsFrom(mounts: seq<MountEntry>, from: nat): seq<string>
    requires from <= |mounts|
    decreases |mounts| - from
  {
    if from == |mounts| then [] else CallsFrom(mounts, from + 1) + PathIfTarget(mounts, from)
  }

  /** The mount points of the targets, in the order of the table. */
  function TargetPaths(mounts: seq<MountEntry>, from: nat): seq<string>
    requires from <= |mounts|
    decreases |mounts| - from
  {
    if from == |mounts| then [] else PathIfTarget(mounts, from) + TargetPaths(mounts, from + 1)
  }

  function Reverse(s: seq<string>): (r: seq<string>)
    ensures |r| == |s| && forall k :: 0 <= k < |s| ==> r[k] == s[|s| - 1 - k]
  {
    if s == [] then [] else Reverse(s[1..]) + [s[0]]
  }

  lemma {:induction false} ReverseOneMore(x: seq<string>, s: seq<string>)
    requires |x| <= 1
    ensures Reverse(x + s) == Reverse(s) + x
  {
    if x == [] {
      assert x + s == s && Reverse(s) + x == Reverse(s);
    } else {
      assert (x + s)[1..] == s;
    }
  }

  lemma {:induction false} CallsAreReversedFilter(mounts: seq<MountEntry>, from: nat)
    requires from <= |mounts|
    ensures CallsFrom(mounts, from) == Reverse(TargetPaths(mounts, from))
    decreases |mounts| - from
  {
    hide PathIfTarget;
    if from < |mounts| {
      CallsAreReversedFilter(mounts, from + 1);
      ReverseOneMore(PathIfTarget(mounts, from), TargetPaths(mounts, from + 1));
    }
  }

  function PointsOf(mounts: seq<MountEntry>, order: seq<nat>): (points: seq<string>)
    requires forall p :: 0 <= p < |order| ==> order[p] < |mounts|
    ensures |points| == |order| && forall p :: 0 <= p < |order| ==> points[p] == mounts[order[p]].mountPoint
  {
    if order == [] then [] else [mounts[order[0]].mountPoint] + PointsOf(mounts, order[1..])
  }

  lemma {:induction false} PointsOneMore(mounts: seq<MountEntry>, k: nat, rest: seq<nat>)
    requires k < |mounts| && rest == CallOrder(TargetsOf(mounts), k)
    ensures PointsOf(mounts, CallOrder(TargetsOf(mounts), k + 1)) == PathIfTarget(mounts, k) + PointsOf(mounts, rest)
  {
    hide IsTarget;
    if IsTarget(mounts, mounts[k]) {
      assert k in TargetsOf(mounts);
      assert ([k] + rest)[1..] == rest;
    } else {
      assert [] + rest == rest && [] + PointsOf(mounts, rest) == PointsOf(mounts, rest);
    }
  }

  lemma {:induction false} NoPoints(mounts: seq<MountEntry>)
    ensures PointsOf(mounts, CallOrder(TargetsOf(mounts), 0)) == []
  {
  }

  /** The calls are made for the targets, each once, from the last listed to the first. */
  lemma {:induction false} CallsFollowOrder(mounts: seq<MountEntry>, from: nat)
    requires from <= |mounts|
    ensures CallsFrom(mounts, from) + PointsOf(mounts, CallOrder(TargetsOf(mounts), from)) == CallsFrom(mounts, 0)
    decreases from
  {
    hide IsTarget, PointsOf, CallOrder, PathIfTarget, TargetsOf;
    if from > 0 {
      var k := from - 1;
      var rest := CallOrder(TargetsOf(mounts), k);
      CallsFollowOrder(mounts, k);
      PointsOneMore(mounts, k, rest);
      Regroup(CallsFrom(mounts, from), PathIfTarget(mounts, k), PointsOf(mounts, rest));
    } else {
      NoPoints(mounts);
      assert CallsFrom(mounts, 0) + [] == CallsFrom(mounts, 0);
    }
  }

  lemma {:induction false} CallsInOrder(mounts: seq<MountEntry>)
    ensures CallsFrom(mounts, 0) == PointsOf(mounts, CallOrder(TargetsOf(mounts), |mounts|))
  {
    hide CallOrder, PointsOf, TargetsOf;
    CallsFollowOrder(mounts, |mounts|);
    var points := PointsOf(mounts, CallOrder(TargetsOf(mounts), |mounts|));
    assert [] + points == points;
  }

  /** The path passed to the `p`-th call of `umount2` is that of target `order[p]`, and a
      target that lies below another one, at any depth, is called for before it. */
  lemma {:induction false} DescendantsCalledFirst(fs: seq<Fields>, makedev: MakeDev, p: nat, q: nat)
    requires Forest(NodesOf(fs))
    ensures var mounts := Entries(fs, makedev);
            var order, calls := CallOrder(TargetsOf(mounts), |mounts|), CallsFrom(mounts, 0);
            && |calls| == |order|
            && (p < |order| ==> calls[p] == mounts[order[p]].mountPoint && IsTarget(mounts, mounts[order[p]]))
            && (p < |order| && q < |order| && order[p] != order[q] && Under(NodesOf(fs), order[q], order[p]) ==> q < p)
  {
    hide IsTarget, Forest, Under, NodesOf, Entries, CallOrder, CallsFrom, PointsOf;
    var mounts := Entries(fs, makedev);
    var order := CallOrder(TargetsOf(mounts), |mounts|);
    CallsInOrder(mounts);
    if p < |order| && q < |order| && order[p] != order[q] && Under(NodesOf(fs), order[q], order[p]) {
      DescendantsFirst(NodesOf(fs), TargetsOf(mounts), p, q);
    }
  }

  function NodeOf(f: Fields): Node {
    Node(f.head.ids.mountId, f.head.ids.parentId, f.head.paths.mountPoint)
  }

  function NodesOf(fs: seq<Fields>): (nodes: seq<Node>)
    ensures |nodes| == |fs| && forall k :: 0 <= k < |fs| ==> nodes[k] == NodeOf(fs[k])
  {
    if fs == [] then [] else NodesOf(fs[..|fs| - 1]) + [NodeOf(fs[|fs| - 1])]
  }

  /** The mounts that the kernel lists: those attached, in order. */
  function Listing(fs: seq<Fields>, attached: set<nat>): (listed: seq<Fields>)
    ensures forall f :: f in listed ==> f in fs
  {
    if fs == [] then [] else
    Listing(fs[..|fs| - 1], attached) + if |fs| - 1 in attached then [fs[|fs| - 1]] else []
  }

  lemma {:induction false} ListingOfAll(fs: seq<Fields>, attached: set<nat>)
    requires forall k: nat :: k < |fs| ==> k in attached
    ensures Listing(fs, attached) == fs
    decreases |fs|
  {
    if fs != [] {
      ListingOfAll(fs[..|fs| - 1], attached);
    }
  }

  function CallOne(nodes: seq<Node>, refused: set<string>, attached: set<nat>, path: string): set<nat> {
    if path in refused then attached else Detach(nodes, attached, path)
  }

  function CallAll(nodes: seq<Node>, refused: set<string>, attached: set<nat>, calls: seq<string>): set<nat> {
    if calls == [] then attached else
    CallOne(nodes, refused, CallAll(nodes, refused, attached, calls[..|calls| - 1]), calls[|calls| - 1])
  }

  /** The mount namespace of the process, as the kernel keeps it. */
  class MountNamespace {
    /** All mounts, numbered in the order in which they are listed. */
    const mounts: seq<Fields>
    /** Paths at which the kernel refuses to unmount. */
    const refused: set<string>
    /** Whether /proc/self/mountinfo can be opened. */
    const readable: bool
    var attached: set<nat>
    /** The paths passed to `umount2` so far. */
    ghost var calls: seq<string>

    constructor (mounts: seq<Fields>, refused: set<string>, readable: bool)
      ensures this.mounts == mounts && this.refused == refused && this.readable == readable
      ensures attached == Below(|mounts|) && calls == []
    {
      this.mounts, this.refused, this.readable := mounts, refused, readable;
      attached, calls := Below(|mounts|), [];
    }

    method ReadMountinfo() returns (file: Option<string>)
      ensures file == if readable then Some(Unlines(PrintAll(Listing(mounts, attached)))) else None
    {
      file := if readable then Some(Unlines(PrintAll(Listing(mounts, attached)))) else None;
    }

    method Umount2(path: string) returns (ret: int)
      modifies this
      ensures calls == old(calls) + [path]
      ensures attached == CallOne(NodesOf(mounts), refused, old(attached), path)
      ensures ret == 0 || attached == old(attached)
    {
      var nodes := NodesOf(mounts);
      ret := if path in refused || Top(nodes, attached, path, |nodes|).None? then -1 else 0;
      attached := CallOne(nodes, refused, attached, path);
      calls := calls + [path];
    }
  }

  /** The entries that the pass sees. */
  function Seen(ns: MountNamespace, makedev: MakeDev): seq<MountEntry>
    reads ns
  {
    if ns.readable then Entries(Listing(ns.mounts, ns.attached), makedev) else []
  }

  /** The table that the pass starts from. */
  method ReadMounts(ns: MountNamespace, parser: MountinfoParser, makedev: MakeDev)
    returns (mountInfos: seq<MountEntry>)
    requires AllLegalLines(ns.mounts)
    modifies parser
    ensures mountInfos == Seen(ns, makedev)
  {
    ghost var listed := Listing(ns.mounts, ns.attached);
    ListedLinesAreLegal(ns.mounts, ns.attached);
    var file := ns.ReadMountinfo();
    mountInfos := parser.ParseSelfMountinfo(false, file, makedev);
    PrintedTableParses(listed, makedev);
  }

  /** The whole table of a tree of mounts can be read, and no call is refused. */
  ghost predicate Entire(ns: MountNamespace)
    reads ns
  {
    ns.readable && ns.refused == {} && ns.attached == Below(|ns.mounts|) && Forest(NodesOf(ns.mounts))
  }

  /** Exactly the mounts that neither are targets nor have one among their ancestors. */
  ghost predicate AsMeant(fs: seq<Fields>, makedev: MakeDev, attached: set<nat>) {
    forall k: nat :: k < |fs| ==> (k in attached <==> !Condemned(fs, makedev, k))
  }

  /** `doUnmount`: whatever the kernel answers to a call, the pass goes on. */
  method DoUnmount(ns: MountNamespace, parser: MountinfoParser, makedev: MakeDev)
    requires AllLegalLines(ns.mounts)
    modifies ns, parser
    ensures ns.calls == old(ns.calls) + CallsFrom(old(Seen(ns, makedev)), 0)
    ensures ns.attached == CallAll(NodesOf(ns.mounts), ns.refused, old(ns.attached),
                                   CallsFrom(old(Seen(ns, makedev)), 0))
    ensures old(Entire(ns)) ==> ns.attached == Left(ns.mounts, makedev)
    ensures old(Entire(ns)) && OnlyTargetsOnTargets(ns.mounts, makedev) ==> AsMeant(ns.mounts, makedev, ns.attached)
    ensures old(Entire(ns)) && Stacked(NodesOf(ns.mounts)) ==>
              (AsMeant(ns.mounts, makedev, ns.attached) <==>
               StacksAreTargets(NodesOf(ns.mounts), TargetsOf(Entries(ns.mounts, makedev))))
  {
    hide *;
    ghost var entire := Entire(ns);
    if entire {
      SeenIsAll(ns, makedev);
    }
    var mountInfos := ReadMounts(ns, parser, makedev);
    var rootResolver := new RootResolver(mountInfos);
    ghost var nodes, refused, before, attached := NodesOf(ns.mounts), ns.refused, ns.calls, ns.attached;
    NothingCalled(mountInfos, nodes, refused, attached);
    assert before + [] == before;
    for i := |mountInfos| downto 0
      invariant ns.calls == before + CallsFrom(mountInfos, i)
      invariant ns.attached == CallAll(nodes, refused, attached, CallsFrom(mountInfos, i))
      invariant rootResolver.Indexes(mountInfos) && fresh(rootResolver)
    {
      var target := ShouldUnmount(mountInfos[i], rootResolver, mountInfos);
      OneEntryBack(mountInfos, i, nodes, refused, attached, before);
      if target {
        var _ := ns.Umount2(mountInfos[i].mountPoint);
      }
    }
    if entire {
      EntirePass(ns.mounts, makedev);
    }
  }

  lemma {:induction false} NothingCalled(mounts: seq<MountEntry>, nodes: seq<Node>, refused: set<string>,
                                         attached: set<nat>)
    ensures CallsFrom(mounts, |mounts|) == [] && CallAll(nodes, refused, attached, []) == attached
  {
  }

  /** What one turn of the loop has to do. */
  lemma {:induction false} OneEntryBack(mounts: seq<MountEntry>, i: nat, nodes: seq<Node>, refused: set<string>,
                                        attached: set<nat>, before: seq<string>)
    requires i < |mounts|
    ensures var calls, calls' := CallsFrom(mounts, i + 1), CallsFrom(mounts, i);
            var path := mounts[i].mountPoint;
            if IsTarget(mounts, mounts[i]) then
              && before + calls' == (before + calls) + [path]
              && CallAll(nodes, refused, attached, calls') ==
                 CallOne(nodes, refused, CallAll(nodes, refused, attached, calls), path)
            else calls' == calls
  {
    hide IsTarget, CallOne;
    var calls := CallsFrom(mounts, i + 1);
    CallAllOneMore(nodes, refused, attached, calls, mounts[i].mountPoint);
    assert calls + [] == calls;
  }

  lemma {:induction false} CallAllOneMore(nodes: seq<Node>, refused: set<string>, attached: set<nat>,
                                          calls: seq<string>, path: string)
    ensures CallAll(nodes, refused, attached, calls + [path]) ==
            CallOne(nodes, refused, CallAll(nodes, refused, attached, calls), path)
  {
    assert (calls + [path])[..|calls|] == calls;
  }

  lemma {:induction false} ListedLinesAreLegal(fs: seq<Fields>, attached: set<nat>)
    requires AllLegalLines(fs)
    ensures AllLegalLines(Listing(fs, attached))
  {
    var listed := Listing(fs, attached);
    assert forall k :: 0 <= k < |listed| ==> listed[k] in fs;
  }

  // ---------------------------------------------------------------------------
  // What the pass leaves
  // ---------------------------------------------------------------------------

  function TargetsOf(mounts: seq<MountEntry>): (targets: set<nat>)
  {
    set k: nat | k < |mounts| && IsTarget(mounts, mounts[k])
  }

  lemma {:induction false} PassIsRun(fs: seq<Fields>, makedev: MakeDev, from: nat)
    requires from <= |fs|
    ensures var mounts := Entries(fs, makedev);
            CallAll(NodesOf(fs), {}, Below(|fs|), CallsFrom(mounts, from)) ==
            RunFrom(NodesOf(fs), TargetsOf(mounts), from)
    decreases |fs| - from
  {
    hide IsTarget, Detach, CallAll, CallsFrom, NodesOf, Entries, Below, OptionsOf, Spaced;
    var nodes, mounts := NodesOf(fs), Entries(fs, makedev);
    NothingCalled(mounts, nodes, {}, Below(|fs|));
    if from < |fs| {
      PassIsRun(fs, makedev, from + 1);
      OneEntryBack(mounts, from, nodes, {}, Below(|fs|), []);
      assert nodes[from].mountPoint == mounts[from].mountPoint;
      assert from in TargetsOf(mounts) <==> IsTarget(mounts, mounts[from]);
    }
  }

  /** Mount `k` is a target, or some chain of parents leads from it to a target. */
  ghost predicate Condemned(fs: seq<Fields>, makedev: MakeDev, k: nat) {
    exists t, chain ::
      t in TargetsOf(Entries(fs, makedev)) && ChainBetween(NodesOf(fs), chain, k, t)
  }

  lemma {:induction false} SurvivorsAreNotCondemned(fs: seq<Fields>, makedev: MakeDev, k: nat)
    requires Forest(NodesOf(fs)) && k < |fs|
    ensures k in Survivors(NodesOf(fs), TargetsOf(Entries(fs, makedev)), 0) <==> !Condemned(fs, makedev, k)
  {
    hide IsTarget, NodesOf, Entries, Forest, Under, ChainBetween;
    var nodes, targets := NodesOf(fs), TargetsOf(Entries(fs, makedev));
    if t :| 0 <= t < |nodes| && t in targets && Under(nodes, k, t) {
      var chain := UnderHasChain(nodes, k, t);
    }
    if t, chain :| t in targets && ChainBetween(nodes, chain, k, t) {
      UnderIsReachability(nodes, k, t);
    }
  }

  /** Only targets are listed after a target at the same path. */
  ghost predicate OnlyTargetsOnTargets(fs: seq<Fields>, makedev: MakeDev) {
    var targets := TargetsOf(Entries(fs, makedev));
    forall i, j :: 0 <= i < j < |fs| && fs[j].head.paths.mountPoint == fs[i].head.paths.mountPoint ==>
      i in targets ==> j in targets
  }

  lemma {:induction false} OnlyTargetsMeansUncovered(fs: seq<Fields>, makedev: MakeDev)
    requires OnlyTargetsOnTargets(fs, makedev)
    ensures AllUncovered(NodesOf(fs), TargetsOf(Entries(fs, makedev)), 0)
  {
    hide IsTarget, Entries, AllUncovered;
    TargetsOnTopAreUncovered(NodesOf(fs), TargetsOf(Entries(fs, makedev)));
  }

  /** The mounts left by the calls of a pass over the whole table, if none is refused. */
  function Left(fs: seq<Fields>, makedev: MakeDev): set<nat> {
    CallAll(NodesOf(fs), {}, Below(|fs|), CallsFrom(Entries(fs, makedev), 0))
  }

  lemma {:induction false} AsMeantIffSurvivors(fs: seq<Fields>, makedev: MakeDev)
    requires Forest(NodesOf(fs))
    ensures var nodes, targets := NodesOf(fs), TargetsOf(Entries(fs, makedev));
            && Left(fs, makedev) == RunFrom(nodes, targets, 0)
            && (AsMeant(fs, makedev, Left(fs, makedev)) <==> Left(fs, makedev) == Survivors(nodes, targets, 0))
  {
    PassIsRun(fs, makedev, 0);
    var nodes, targets := NodesOf(fs), TargetsOf(Entries(fs, makedev));
    hide CallAll, RunFrom, Condemned, Survivors, Forest, NodesOf, TargetsOf;
    var left, survivors := Left(fs, makedev), Survivors(nodes, targets, 0);
    forall k: nat | k < |fs|
      ensures k in survivors <==> !Condemned(fs, makedev, k)
    {
      SurvivorsAreNotCondemned(fs, makedev, k);
    }
    SurvivorsAreListed(nodes, targets);
    if AsMeant(fs, makedev, left) {
      assert left == survivors;
    }
  }

  lemma {:induction false} SurvivorsAreListed(nodes: seq<Node>, targets: set<nat>)
    ensures Survivors(nodes, targets, 0) <= Below(|nodes|)
  {
  }

  /** If only targets are listed after a target at the same path, the pass leaves exactly
      the mounts that are not targets and have no target among their ancestors. */
  lemma {:induction false} PassLeavesTheRest(fs: seq<Fields>, makedev: MakeDev)
    requires Forest(NodesOf(fs)) && OnlyTargetsOnTargets(fs, makedev)
    ensures AsMeant(fs, makedev, Left(fs, makedev))
  {
    hide *;
    AsMeantIffSurvivors(fs, makedev);
    OnlyTargetsMeansUncovered(fs, makedev);
    PassLeavesSurvivors(NodesOf(fs), TargetsOf(Entries(fs, makedev)));
  }

  /** Where mounts at the same path are stacked, the exact condition, however the targets
      lie: only targets are stacked on the outermost targets. */
  lemma {:induction false} PassIsRightIff(fs: seq<Fields>, makedev: MakeDev)
    requires Forest(NodesOf(fs)) && Stacked(NodesOf(fs))
    ensures AsMeant(fs, makedev, Left(fs, makedev)) <==>
            StacksAreTargets(NodesOf(fs), TargetsOf(Entries(fs, makedev)))
  {
    hide *;
    AsMeantIffSurvivors(fs, makedev);
    PassIsRightIffStacksAreTargets(NodesOf(fs), TargetsOf(Entries(fs, makedev)));
  }

  /** Where they are not, the exact condition for targets that do not lie below one another:
      all that is listed after a target at its path is, or lies below, a later target. */
  lemma {:induction false} UnstackedPassIsRightIff(fs: seq<Fields>, makedev: MakeDev)
    requires Forest(NodesOf(fs)) && Separate(NodesOf(fs), TargetsOf(Entries(fs, makedev)))
    ensures AsMeant(fs, makedev, Left(fs, makedev)) <==>
            AllUncovered(NodesOf(fs), TargetsOf(Entries(fs, makedev)), 0)
  {
    hide *;
    AsMeantIffSurvivors(fs, makedev);
    PassIsRightIffUncovered(NodesOf(fs), TargetsOf(Entries(fs, makedev)));
  }

  /** What an undisturbed pass starts from. */
  lemma {:induction false} SeenIsAll(ns: MountNamespace, makedev: MakeDev)
    requires Entire(ns)
    ensures Seen(ns, makedev) == Entries(ns.mounts, makedev)
    ensures ns.refused == {} && ns.attached == Below(|ns.mounts|) && Forest(NodesOf(ns.mounts))
  {
    ListingOfAll(ns.mounts, ns.attached);
  }

  /** What it leaves. */
  lemma {:induction false} EntirePass(fs: seq<Fields>, makedev: MakeDev)
    requires Forest(NodesOf(fs))
    ensures Left(fs, makedev) == CallAll(NodesOf(fs), {}, Below(|fs|), CallsFrom(Entries(fs, makedev), 0))
    ensures OnlyTargetsOnTargets(fs, makedev) ==> AsMeant(fs, makedev, Left(fs, makedev))
    ensures Stacked(NodesOf(fs)) ==>
              (AsMeant(fs, makedev, Left(fs, makedev)) <==>
               StacksAreTargets(NodesOf(fs), TargetsOf(Entries(fs, makedev))))
  {
    hide Forest, NodesOf, CallAll, AsMeant, OnlyTargetsOnTargets, Stacked, StacksAreTargets, TargetsOf;
    if OnlyTargetsOnTargets(fs, makedev) {
      PassLeavesTheRest(fs, makedev);
    }
    if Stacked(NodesOf(fs)) {
      PassIsRightIff(fs, makedev);
    }
  }

  // A table on which the pass goes wrong

  const COVERED := [
    Fields(Head(Ids(1, 0, 0, 1), Paths("/", "/x", "rw")), [], Last("tmpfs", "magisk", "rw")),
    Fields(Head(Ids(2, 1, 8, 2), Paths("/", "/x", "rw")), [], Last("ext4", "sda", "rw"))]

  lemma {:induction false} PlainWord(w: string)
    requires w in {"/", "/x", "rw", "tmpfs", "magisk", "ext4", "sda"}
    ensures IsWord(w)
  {
  }

  lemma {:induction false} CoveredIsLegal()
    ensures AllLegalLines(COVERED)
  {
    PlainWord("/");
    PlainWord("/x");
    PlainWord("rw");
    PlainWord("tmpfs");
    PlainWord("magisk");
    PlainWord("ext4");
    PlainWord("sda");
    hide IsWord;
  }

  /** Whatever device numbers the two have, the first is a target and the second is not. */
  lemma {:induction false} CoveredTargets(makedev: MakeDev)
    ensures TargetsOf(Entries(COVERED, makedev)) == {0}
  {
    hide OptionsOf, Spaced, LastRootMount, TrueRoot;
    var mounts := Entries(COVERED, makedev);
    assert mounts[0].source == "magisk" && mounts[0].fsType == "tmpfs";
    var e := mounts[1];
    assert e.fsType == "ext4" && e.mountPoint == "/x" && e.root == "/";
    ShortRootIsNoTarget(mounts, e);
    assert IsTarget(mounts, mounts[0]) by { assert "magisk" in FS_NAMES; }
    hide IsTarget, Entries;
  }

  lemma {:induction false} RootMountListed(mounts: seq<MountEntry>, device: int)
    requires forall k :: 0 <= k < |mounts| ==> mounts[k].mountPoint == "/x"
    ensures LastRootMount(mounts, device).Some? ==> LastRootMount(mounts, device).value == "/x"
  {
    if mounts != [] {
      RootMountListed(mounts[..|mounts| - 1], device);
    }
  }

  lemma {:induction false} ShortRootIsNoTarget(mounts: seq<MountEntry>, e: MountEntry)
    requires forall k :: 0 <= k < |mounts| ==> mounts[k].mountPoint == "/x"
    requires e.mountPoint == "/x" && e.root == "/" && e.fsType == "ext4"
    ensures !IsTarget(mounts, e)
  {
    RootMountListed(mounts, e.device);
    hide LastRootMount;
    assert |TrueRoot(mounts, e)| <= 3;
    assert forall dir :: dir in MOUNT_DIRS ==> |dir| > 3;
  }

  /** A root solution's tmpfs that an ordinary file system has been mounted over: the pass
      unmounts the ordinary one and leaves its target. */
  lemma {:induction false} CoveredTargetIsLeft(makedev: MakeDev)
    ensures AllLegalLines(COVERED) && Forest(NodesOf(COVERED)) && Stacked(NodesOf(COVERED))
    ensures TargetsOf(Entries(COVERED, makedev)) == {0}
    ensures Left(COVERED, makedev) == {0} && !AsMeant(COVERED, makedev, Left(COVERED, makedev))
  {
    CoveredIsLegal();
    CoveredTargets(makedev);
    CoveredTargetStays();
    var nodes := [Node(1, 0, "/x"), Node(2, 1, "/x")];
    assert NodesOf(COVERED) == nodes;
    AsMeantIffSurvivors(COVERED, makedev);
    hide *;
  }
}
