/** What a pass of unmount calls does to a mount namespace.

  The kernel lists the mounts of a namespace parents first.  A call names a path, detaches
  the mount on top at that path together with everything mounted below it, and succeeds
  whenever there is one.  The pass goes through the list backwards and calls with the path
  of each target.  So a call is made because of one mount, and may detach another. */
module MountForest {
  import opened Streams

  datatype Node = Node(id: int, parent: int, mountPoint: string)

  /** Ids are unique, and no mount is listed before its parent.  A mount may name itself
      as its parent, as the root file system does. */
  predicate Forest(nodes: seq<Node>) {
    && (forall j, k :: 0 <= j < k < |nodes| ==> nodes[j].id != nodes[k].id)
    && (forall j, k :: 0 <= j < |nodes| && 0 <= k < |nodes| && nodes[j].id == nodes[k].parent ==> j <= k)
  }

  /** Mount `k` is mount `t` or lies below it. */
  predicate Under(nodes: seq<Node>, k: nat, t: nat)
    requires k < |nodes| && t < |nodes|
    decreases k
  {
    k == t || exists j :: 0 <= j < k && nodes[j].id == nodes[k].parent && Under(nodes, j, t)
  }

  /** The mount on top at a path, among the first `n`: the last one listed. */
  function Top(nodes: seq<Node>, attached: set<nat>, path: string, n: nat): (top: Option<nat>)
    requires n <= |nodes|
    ensures top.None? ==> forall k :: 0 <= k < n && k in attached ==> nodes[k].mountPoint != path
    ensures top.Some? ==>
              && top.value < n && top.value in attached && nodes[top.value].mountPoint == path
              && forall k :: top.value < k < n && k in attached ==> nodes[k].mountPoint != path
  {
    if n == 0 then None
    else if n - 1 in attached && nodes[n - 1].mountPoint == path then Some(n - 1)
    else Top(nodes, attached, path, n - 1)
  }

  /** `umount2(path, MNT_DETACH)` */
  function Detach(nodes: seq<Node>, attached: set<nat>, path: string): (rest: set<nat>)
    ensures rest <= attached
  {
    match Top(nodes, attached, path, |nodes|)
    case None => attached
    case Some(top) => set k | k in attached && (k < |nodes| ==> !Under(nodes, k, top))
  }

  function Below(n: nat): (all: set<nat>)
    ensures forall k: nat :: k in all <==> k < n
  {
    if n == 0 then {} else Below(n - 1) + {n - 1}
  }

  /** The mounts attached when the pass has gone back to mount `from`. */
  function RunFrom(nodes: seq<Node>, targets: set<nat>, from: nat): (attached: set<nat>)
    requires from <= |nodes|
    ensures attached <= Below(|nodes|)
    decreases |nodes| - from
  {
    if from == |nodes| then Below(|nodes|) else
    var attached := RunFrom(nodes, targets, from + 1);
    if from in targets then Detach(nodes, attached, nodes[from].mountPoint) else attached
  }

  // ---------------------------------------------------------------------------
  // Ancestors
  // ---------------------------------------------------------------------------

  predicate MountedOn(nodes: seq<Node>, k: nat, parent: nat) {
    k < |nodes| && parent < |nodes| && nodes[parent].id == nodes[k].parent
  }

  /** A chain of mounts, each mounted on the next. */
  ghost predicate Chain(nodes: seq<Node>, chain: seq<nat>) {
    && |chain| > 0
    && (forall i :: 0 <= i < |chain| ==> chain[i] < |nodes|)
    && (forall i :: 0 <= i < |chain| - 1 ==> MountedOn(nodes, chain[i], chain[i + 1]))
  }

  ghost predicate ChainBetween(nodes: seq<Node>, chain: seq<nat>, k: nat, t: nat) {
    Chain(nodes, chain) && chain[0] == k && chain[|chain| - 1] == t
  }

  /** `Under` is reachability over parent links. */
  lemma {:induction false} ChainMeansUnder(nodes: seq<Node>, chain: seq<nat>)
    requires Forest(nodes) && Chain(nodes, chain)
    ensures Under(nodes, chain[0], chain[|chain| - 1])
    decreases |chain|
  {
    if |chain| > 1 {
      var rest := chain[1..];
      forall i | 0 <= i < |rest| - 1
        ensures MountedOn(nodes, rest[i], rest[i + 1])
      {
        assert MountedOn(nodes, chain[i + 1], chain[i + 1 + 1]);
      }
      ChainMeansUnder(nodes, rest);
      assert MountedOn(nodes, chain[0], chain[0 + 1]);
    }
  }

  lemma {:induction false} UnderHasChain(nodes: seq<Node>, k: nat, t: nat) returns (chain: seq<nat>)
    requires k < |nodes| && t < |nodes| && Under(nodes, k, t)
    ensures ChainBetween(nodes, chain, k, t)
    decreases k
  {
    if k == t {
      chain := [k];
    } else {
      var j :| 0 <= j < k && nodes[j].id == nodes[k].parent && Under(nodes, j, t);
      var rest := UnderHasChain(nodes, j, t);
      chain := [k] + rest;
    }
  }

  lemma {:induction false} UnderIsReachability(nodes: seq<Node>, k: nat, t: nat)
    requires Forest(nodes) && k < |nodes| && t < |nodes|
    ensures Under(nodes, k, t) <==> exists chain :: ChainBetween(nodes, chain, k, t)
  {
    if Under(nodes, k, t) {
      var chain := UnderHasChain(nodes, k, t);
    }
    if chain :| ChainBetween(nodes, chain, k, t) {
      ChainMeansUnder(nodes, chain);
    }
  }

  lemma {:induction false} UnderIsListedAfter(nodes: seq<Node>, k: nat, t: nat)
    requires k < |nodes| && t < |nodes| && Under(nodes, k, t)
    ensures t <= k
    decreases k
  {
    if k != t {
      var j :| 0 <= j < k && nodes[j].id == nodes[k].parent && Under(nodes, j, t);
      UnderIsListedAfter(nodes, j, t);
    }
  }

  // ---------------------------------------------------------------------------
  // Order
  // ---------------------------------------------------------------------------

  /** The targets in the order in which the pass calls for them. */
  function CallOrder(targets: set<nat>, n: nat): (order: seq<nat>)
    ensures forall p :: 0 <= p < |order| ==> order[p] < n && order[p] in targets
    ensures forall k :: k in targets && k < n ==> k in order
    ensures forall p, q :: 0 <= p < q < |order| ==> order[p] > order[q]
  {
    if n == 0 then []
    else (if n - 1 in targets then [n - 1] else []) + CallOrder(targets, n - 1)
  }

  /** No target is called for before a target that lies below it. */
  lemma {:induction false} DescendantsFirst(nodes: seq<Node>, targets: set<nat>, p: nat, q: nat)
    requires var order := CallOrder(targets, |nodes|);
             p < |order| && q < |order| && order[p] != order[q] && Under(nodes, order[q], order[p])
    ensures q < p
  {
    var order := CallOrder(targets, |nodes|);
    UnderIsListedAfter(nodes, order[q], order[p]);
  }

  // ---------------------------------------------------------------------------
  // The final state
  // ---------------------------------------------------------------------------

  /** Mount `k` is, or lies below, a target at `from` or later. */
  predicate Doomed(nodes: seq<Node>, targets: set<nat>, k: nat, from: nat)
    requires k < |nodes|
  {
    exists t :: from <= t < |nodes| && t in targets && Under(nodes, k, t)
  }

  /** The mounts that the pass is meant to leave. */
  function Survivors(nodes: seq<Node>, targets: set<nat>, from: nat): set<nat> {
    set k: nat | k < |nodes| && !Doomed(nodes, targets, k, from)
  }

  /** The call made because of target `j` detaches `j` itself. */
  predicate HitsOwn(nodes: seq<Node>, targets: set<nat>, j: nat)
    requires j < |nodes|
  {
    Top(nodes, RunFrom(nodes, targets, j + 1), nodes[j].mountPoint, |nodes|) == Some(j)
  }

  ghost predicate AllHitOwn(nodes: seq<Node>, targets: set<nat>, from: nat) {
    forall j :: from <= j < |nodes| && j in targets ==> HitsOwn(nodes, targets, j)
  }

  /** Whatever is listed after `j` at the same path is gone, because of a later target,
      by the time that `j` is called for.  This can be read off the list of mounts. */
  predicate Uncovered(nodes: seq<Node>, targets: set<nat>, j: nat)
    requires j < |nodes|
  {
    forall k :: j < k < |nodes| && nodes[k].mountPoint == nodes[j].mountPoint
                ==> Doomed(nodes, targets, k, j + 1)
  }

  ghost predicate AllUncovered(nodes: seq<Node>, targets: set<nat>, from: nat) {
    forall j :: from <= j < |nodes| && j in targets ==> Uncovered(nodes, targets, j)
  }

  lemma {:induction false} TargetsSurviveLaterCalls(nodes: seq<Node>, targets: set<nat>, j: nat)
    requires j < |nodes|
    ensures j in Survivors(nodes, targets, j + 1)
  {
    if Doomed(nodes, targets, j, j + 1) {
      var t :| j + 1 <= t < |nodes| && t in targets && Under(nodes, j, t);
      UnderIsListedAfter(nodes, j, t);
    }
  }

  /** One call, made when exactly the survivors of the later targets are attached. */
  lemma {:induction false} CallStep(nodes: seq<Node>, targets: set<nat>, j: nat)
    requires j < |nodes| && j in targets
    requires RunFrom(nodes, targets, j + 1) == Survivors(nodes, targets, j + 1)
    ensures HitsOwn(nodes, targets, j) <==> Uncovered(nodes, targets, j)
    ensures HitsOwn(nodes, targets, j) ==>
              RunFrom(nodes, targets, j) == Survivors(nodes, targets, j)
  {
    TargetsSurviveLaterCalls(nodes, targets, j);
    var attached := RunFrom(nodes, targets, j + 1);
    if HitsOwn(nodes, targets, j) {
      forall k: nat | k < |nodes|
        ensures k in RunFrom(nodes, targets, j) <==> k in Survivors(nodes, targets, j)
      {
        assert Doomed(nodes, targets, k, j) <==> Doomed(nodes, targets, k, j + 1) || Under(nodes, k, j);
      }
    }
  }

  lemma {:induction false} PassStep(nodes: seq<Node>, targets: set<nat>, from: nat)
    requires from <= |nodes|
    requires AllHitOwn(nodes, targets, from) || AllUncovered(nodes, targets, from)
    ensures AllHitOwn(nodes, targets, from) && AllUncovered(nodes, targets, from)
    ensures RunFrom(nodes, targets, from) == Survivors(nodes, targets, from)
    decreases |nodes| - from
  {
    if from < |nodes| {
      PassStep(nodes, targets, from + 1);
      if from in targets {
        CallStep(nodes, targets, from);
      } else {
        forall k: nat | k < |nodes|
          ensures Doomed(nodes, targets, k, from) <==> Doomed(nodes, targets, k, from + 1)
        {
        }
      }
    }
  }

  /** Every call detaches the mount it was made for exactly when no target is covered. */
  lemma {:induction false} CallsHitTheirOwnIffUncovered(nodes: seq<Node>, targets: set<nat>)
    ensures AllHitOwn(nodes, targets, 0) <==> AllUncovered(nodes, targets, 0)
  {
    if AllHitOwn(nodes, targets, 0) || AllUncovered(nodes, targets, 0) {
      PassStep(nodes, targets, 0);
    }
  }

  /** And then the pass leaves exactly the mounts that neither are targets nor lie below
      one. */
  lemma {:induction false} PassLeavesSurvivors(nodes: seq<Node>, targets: set<nat>)
    requires AllUncovered(nodes, targets, 0)
    ensures RunFrom(nodes, targets, 0) == Survivors(nodes, targets, 0)
  {
    PassStep(nodes, targets, 0);
  }

  /** It is enough that only targets are listed after a target at the same path. */
  lemma {:induction false} TargetsOnTopAreUncovered(nodes: seq<Node>, targets: set<nat>)
    requires forall j, k :: 0 <= j < k < |nodes| && nodes[k].mountPoint == nodes[j].mountPoint ==>
               j in targets ==> k in targets
    ensures AllUncovered(nodes, targets, 0)
  {
    forall j, k | 0 <= j < k < |nodes| && j in targets && nodes[k].mountPoint == nodes[j].mountPoint
      ensures Doomed(nodes, targets, k, j + 1)
    {
      assert Under(nodes, k, k);
    }
  }

  /** It does not hold of all mount tables: when a mount that is no target has been put
      over a target, the call detaches that mount and the target stays. */
  lemma {:induction false} CoveredTargetStays()
    ensures var nodes := [Node(1, 0, "/x"), Node(2, 1, "/x")];
            && Forest(nodes) && Stacked(nodes)
            && RunFrom(nodes, {0}, 0) == {0}
            && Survivors(nodes, {0}, 0) == {}
  {
    var nodes := [Node(1, 0, "/x"), Node(2, 1, "/x")];
    assert MountedOn(nodes, 1, 0);
    assert Under(nodes, 0, 0);
    assert Under(nodes, 1, 0);
    assert Below(|nodes|) == {0, 1};
    assert RunFrom(nodes, {0}, 2) == {0, 1};
    assert RunFrom(nodes, {0}, 1) == {0, 1};
    assert Top(nodes, {0, 1}, "/x", 2) == Some(1);
    assert !Under(nodes, 0, 1);
  }

  // ---------------------------------------------------------------------------
  // When exactly the final state is right, if no target lies below another
  // ---------------------------------------------------------------------------

  predicate Separate(nodes: seq<Node>, targets: set<nat>) {
    forall j, k :: 0 <= j < |nodes| && 0 <= k < |nodes| && Under(nodes, k, j) ==>
      j in targets && k in targets ==> j == k
  }

  /** A mount is attached until the pass has gone back to it: the calls before that detach
      only what is listed later. */
  lemma {:induction false} AttachedUntilReached(nodes: seq<Node>, targets: set<nat>, from: nat, k: nat)
    requires k < from <= |nodes|
    ensures k in RunFrom(nodes, targets, from)
    decreases |nodes| - from
  {
    if from < |nodes| {
      AttachedUntilReached(nodes, targets, from + 1, k);
      if from in targets {
        var h := HitOf(nodes, targets, from);
        if Under(nodes, k, h) {
          UnderIsListedAfter(nodes, k, h);
        }
      }
    }
  }

  /** What the call for a target detaches is listed at the target or later. */
  lemma {:induction false} HitOf(nodes: seq<Node>, targets: set<nat>, j: nat) returns (h: nat)
    requires j < |nodes| && j in targets
    ensures j <= h < |nodes| && nodes[h].mountPoint == nodes[j].mountPoint
    ensures Top(nodes, RunFrom(nodes, targets, j + 1), nodes[j].mountPoint, |nodes|) == Some(h)
    decreases |nodes| - j, 0
  {
    AttachedUntilReached(nodes, targets, j + 1, j);
    h := Top(nodes, RunFrom(nodes, targets, j + 1), nodes[j].mountPoint, |nodes|).value;
  }

  /** A call that misses leaves its own target. */
  lemma {:induction false} MissLeavesTarget(nodes: seq<Node>, targets: set<nat>, j: nat, h: nat)
    requires j < h < |nodes| && j in targets
    requires Top(nodes, RunFrom(nodes, targets, j + 1), nodes[j].mountPoint, |nodes|) == Some(h)
    ensures j in RunFrom(nodes, targets, j)
  {
    AttachedUntilReached(nodes, targets, j + 1, j);
    if Under(nodes, j, h) {
      UnderIsListedAfter(nodes, j, h);
    }
  }

  /** Once a call has missed, some target that has been called for is attached, from then
      on and to the end. */
  lemma {:induction false} MissIsNeverRepaired(nodes: seq<Node>, targets: set<nat>, from: nat, j: nat)
    returns (left: nat)
    requires Separate(nodes, targets) && from <= j < |nodes| && j in targets
    requires !HitsOwn(nodes, targets, j)
    ensures from <= left < |nodes| && left in targets && left in RunFrom(nodes, targets, from)
    decreases |nodes| - from
  {
    if from < j {
      left := MissIsNeverRepaired(nodes, targets, from + 1, j);
    } else {
      left := j;
    }
    if from in targets {
      var h := HitOf(nodes, targets, from);
      if h != from {
        // This call misses as well, so its own target stays.
        MissLeavesTarget(nodes, targets, from, h);
        left := from;
      }
    }
  }

  /** For separate targets the pass leaves what it should exactly when no target is
      covered. */
  lemma {:induction false} PassIsRightIffUncovered(nodes: seq<Node>, targets: set<nat>)
    requires Separate(nodes, targets)
    ensures RunFrom(nodes, targets, 0) == Survivors(nodes, targets, 0) <==> AllUncovered(nodes, targets, 0)
  {
    CallsHitTheirOwnIffUncovered(nodes, targets);
    if AllUncovered(nodes, targets, 0) {
      PassLeavesSurvivors(nodes, targets);
    } else {
      var j :| 0 <= j < |nodes| && j in targets && !HitsOwn(nodes, targets, j);
      var left := MissIsNeverRepaired(nodes, targets, 0, j);
      assert Under(nodes, left, left);
      assert Doomed(nodes, targets, left, 0);
    }
  }

  /** For a target below another one a miss may do no harm, because the call for the outer
      target detaches it all the same. */
  lemma {:induction false} MissInsideATarget()
    ensures var nodes, targets := [Node(1, 0, "/a"), Node(2, 1, "/a/b"), Node(3, 2, "/a/b")], {0, 1};
            && Forest(nodes) && !Separate(nodes, targets) && !AllUncovered(nodes, targets, 0)
            && RunFrom(nodes, targets, 0) == Survivors(nodes, targets, 0)
  {
    var nodes, targets: set<nat> := [Node(1, 0, "/a"), Node(2, 1, "/a/b"), Node(3, 2, "/a/b")], {0, 1};
    UnderSteps(nodes);
    assert !Uncovered(nodes, targets, 1) by {
      assert nodes[2].mountPoint == nodes[1].mountPoint && !Doomed(nodes, targets, 2, 2);
    }
    hide Under;
    assert Below(|nodes|) == {0, 1, 2};
    assert RunFrom(nodes, targets, 2) == {0, 1, 2};
    assert Top(nodes, {0, 1, 2}, "/a/b", 3) == Some(2);
    assert RunFrom(nodes, targets, 1) == {0, 1};
    assert Top(nodes, {0, 1}, "/a", 3) == Some(0);
    assert RunFrom(nodes, targets, 0) == {};
    assert Doomed(nodes, targets, 0, 0) && Doomed(nodes, targets, 1, 0) && Doomed(nodes, targets, 2, 0);
  }

  lemma {:induction false} UnderSteps(nodes: seq<Node>)
    requires |nodes| == 3 && nodes[0].id == nodes[1].parent && nodes[1].id == nodes[2].parent
    ensures Under(nodes, 0, 0) && Under(nodes, 1, 0) && Under(nodes, 2, 0)
    ensures !Under(nodes, 0, 2) && !Under(nodes, 1, 2)
  {
    assert Under(nodes, 0, 0) && Under(nodes, 1, 0);
  }

  // ---------------------------------------------------------------------------
  // When exactly the final state is right, if targets may lie below one another
  // ---------------------------------------------------------------------------

  /** Mounts at the same path form a stack: each is mounted on the one before it, because
      the kernel mounts on what is on top at the path. */
  predicate Stacked(nodes: seq<Node>) {
    forall j, k :: 0 <= j < k < |nodes| && nodes[j].mountPoint == nodes[k].mountPoint ==>
      exists p :: j <= p < k && nodes[p].mountPoint == nodes[k].mountPoint && MountedOn(nodes, k, p)
  }

  /** A target with no target among its proper ancestors. */
  predicate Outermost(nodes: seq<Node>, targets: set<nat>, m: nat)
    requires m < |nodes|
  {
    m in targets && forall t :: 0 <= t < m && t in targets ==> !Under(nodes, m, t)
  }

  /** Everything listed after mount `m` at its path is a target. */
  predicate StackIsTargets(nodes: seq<Node>, targets: set<nat>, m: nat)
    requires m < |nodes|
  {
    forall k :: m < k < |nodes| && nodes[k].mountPoint == nodes[m].mountPoint ==> k in targets
  }

  /** No outermost target carries a mount at its path that is no target.  This can be read
      off the list of mounts. */
  ghost predicate StacksAreTargets(nodes: seq<Node>, targets: set<nat>) {
    forall m :: 0 <= m < |nodes| && Outermost(nodes, targets, m) ==> StackIsTargets(nodes, targets, m)
  }

  lemma {:induction false} UnderTransitive(nodes: seq<Node>, a: nat, b: nat, c: nat)
    requires a < |nodes| && b < |nodes| && c < |nodes| && Under(nodes, a, b) && Under(nodes, b, c)
    ensures Under(nodes, a, c)
    decreases a
  {
    if a != b {
      var j :| 0 <= j < a && nodes[j].id == nodes[a].parent && Under(nodes, j, b);
      UnderTransitive(nodes, j, b, c);
    }
  }

  lemma {:induction false} StackParent(nodes: seq<Node>, j: nat, k: nat) returns (p: nat)
    requires Stacked(nodes) && j < k < |nodes| && nodes[j].mountPoint == nodes[k].mountPoint
    ensures j <= p < k && nodes[p].mountPoint == nodes[k].mountPoint && MountedOn(nodes, k, p)
  {
    p :| j <= p < k && nodes[p].mountPoint == nodes[k].mountPoint && MountedOn(nodes, k, p);
  }

  lemma {:induction false} StackLiesBelow(nodes: seq<Node>, j: nat, k: nat)
    requires Stacked(nodes) && j <= k < |nodes| && nodes[j].mountPoint == nodes[k].mountPoint
    ensures Under(nodes, k, j)
    decreases k
  {
    if j < k {
      var p := StackParent(nodes, j, k);
      StackLiesBelow(nodes, j, p);
    }
  }

  lemma {:induction false} OnlyParent(nodes: seq<Node>, k: nat, p: nat, h: nat)
    requires Forest(nodes) && p < k < |nodes| && MountedOn(nodes, k, p)
    requires h < |nodes| && h != k && Under(nodes, k, h)
    ensures Under(nodes, p, h)
  {
    var j :| 0 <= j < k && nodes[j].id == nodes[k].parent && Under(nodes, j, h);
    assert nodes[j].id == nodes[p].id;
    assert j == p by { hide Under; }
  }

  /** What lies below a mount of a stack's upper part, and is at another path, lies below
      the mount that the stack starts from. */
  lemma {:induction false} StackHasOneAncestry(nodes: seq<Node>, m: nat, k: nat, h: nat)
    requires Forest(nodes) && Stacked(nodes) && m <= k < |nodes| && h < |nodes|
    requires nodes[m].mountPoint == nodes[k].mountPoint != nodes[h].mountPoint && Under(nodes, k, h)
    ensures Under(nodes, m, h) && h < m
    decreases k
  {
    hide Under, Forest, Stacked;
    if m < k {
      var p := StackParent(nodes, m, k);
      OnlyParent(nodes, k, p, h);
      StackHasOneAncestry(nodes, m, p, h);
    } else {
      UnderIsListedAfter(nodes, m, h);
    }
  }

  /** Only what is meant to go is ever detached. */
  lemma {:induction false} OnlyDoomedDetached(nodes: seq<Node>, targets: set<nat>, from: nat, k: nat)
    requires Stacked(nodes) && from <= |nodes| && k < |nodes| && !Doomed(nodes, targets, k, 0)
    ensures k in RunFrom(nodes, targets, from)
    decreases |nodes| - from
  {
    hide Stacked, Under;
    if from < |nodes| {
      OnlyDoomedDetached(nodes, targets, from + 1, k);
      if from in targets {
        var h := HitOf(nodes, targets, from);
        StackLiesBelow(nodes, from, h);
        if Under(nodes, k, h) {
          UnderTransitive(nodes, k, h, from);
        }
      }
    }
  }

  /** Where only targets are stacked on mount `m`, the calls take the stack down one by
      one: nothing is attached there from the place that the pass has reached. */
  lemma {:induction false} StackTakenDown(nodes: seq<Node>, targets: set<nat>, m: nat, from: nat, k: nat)
    requires m <= from <= k < |nodes| && m in targets && StackIsTargets(nodes, targets, m)
    requires nodes[k].mountPoint == nodes[m].mountPoint
    ensures k !in RunFrom(nodes, targets, from)
    decreases |nodes| - from
  {
    if from == k {
      var h := HitOf(nodes, targets, k);
      if h > k {
        StackTakenDown(nodes, targets, m, k + 1, h);
      }
      assert Under(nodes, k, k);
    } else {
      StackTakenDown(nodes, targets, m, from + 1, k);
      RunOnlyDetaches(nodes, targets, from, from + 1);
    }
  }

  lemma {:induction false} RunOnlyDetaches(nodes: seq<Node>, targets: set<nat>, from: nat, later: nat)
    requires from <= later <= |nodes|
    ensures RunFrom(nodes, targets, from) <= RunFrom(nodes, targets, later)
    decreases later - from
  {
    if from < later {
      RunOnlyDetaches(nodes, targets, from + 1, later);
    }
  }

  /** Then all that lies below `m` is detached by the time that `m` has been called for. */
  lemma {:induction false} OutermostTakesAll(nodes: seq<Node>, targets: set<nat>, m: nat, k: nat)
    requires m < |nodes| && k < |nodes| && m in targets && StackIsTargets(nodes, targets, m)
    requires Under(nodes, k, m)
    ensures k !in RunFrom(nodes, targets, 0)
  {
    hide Under, StackIsTargets;
    RunOnlyDetaches(nodes, targets, 0, m);
    var h := HitOf(nodes, targets, m);
    if h > m {
      StackTakenDown(nodes, targets, m, m + 1, h);
    }
  }

  lemma {:induction false} OutermostAbove(nodes: seq<Node>, targets: set<nat>, t: nat) returns (m: nat)
    requires t < |nodes| && t in targets
    ensures m < |nodes| && Outermost(nodes, targets, m) && Under(nodes, t, m)
    decreases t
  {
    hide Under;
    if Outermost(nodes, targets, t) {
      m := t;
      assert Under(nodes, t, t) by { UnderItself(nodes, t); }
    } else {
      var u :| 0 <= u < t && u in targets && Under(nodes, t, u);
      m := OutermostAbove(nodes, targets, u);
      UnderTransitive(nodes, t, u, m);
    }
  }

  lemma {:induction false} UnderItself(nodes: seq<Node>, k: nat)
    requires k < |nodes|
    ensures Under(nodes, k, k)
  {
  }

  /** If a mount `c` that is no target is stacked on mount `m`, each call for a target
      between them leaves some mount of the stack attached. */
  lemma {:induction false} StackOutlastsCalls(nodes: seq<Node>, targets: set<nat>, m: nat, c: nat, from: nat)
    returns (k: nat)
    requires Forest(nodes) && Stacked(nodes) && m < from <= c < |nodes|
    requires c !in targets && nodes[c].mountPoint == nodes[m].mountPoint
    ensures from <= k < |nodes| && nodes[k].mountPoint == nodes[m].mountPoint && k in RunFrom(nodes, targets, from)
    decreases c - from
  {
    hide Forest, Stacked, Under;
    if from == c {
      AttachedUntilReached(nodes, targets, c + 1, c);
      k := c;
    } else {
      k := StackOutlastsCalls(nodes, targets, m, c, from + 1);
      if from in targets {
        var h := HitOf(nodes, targets, from);
        if Under(nodes, k, h) {
          if nodes[h].mountPoint == nodes[m].mountPoint {
            MissLeavesTarget(nodes, targets, from, h);
            k := from;
          } else {
            StackHasOneAncestry(nodes, m, k, h);
          }
        }
      }
    }
  }

  /** An outermost target whose call has missed stays to the end. */
  lemma {:induction false} MissedOutermostStays(nodes: seq<Node>, targets: set<nat>, m: nat, from: nat)
    requires Stacked(nodes) && from <= m < |nodes| && Outermost(nodes, targets, m)
    requires !HitsOwn(nodes, targets, m)
    ensures m in RunFrom(nodes, targets, from)
    decreases m - from
  {
    hide Stacked, Under;
    if from == m {
      var h := HitOf(nodes, targets, m);
      MissLeavesTarget(nodes, targets, m, h);
    } else {
      MissedOutermostStays(nodes, targets, m, from + 1);
      if from in targets {
        var h := HitOf(nodes, targets, from);
        StackLiesBelow(nodes, from, h);
        if Under(nodes, m, h) {
          UnderTransitive(nodes, m, h, from);
        }
      }
    }
  }

  lemma {:induction false} TargetStacksSuffice(nodes: seq<Node>, targets: set<nat>)
    requires Stacked(nodes) && StacksAreTargets(nodes, targets)
    ensures RunFrom(nodes, targets, 0) == Survivors(nodes, targets, 0)
  {
    hide Stacked, Under, RunFrom;
    forall k: nat | k < |nodes|
      ensures k in RunFrom(nodes, targets, 0) <==> !Doomed(nodes, targets, k, 0)
    {
      if Doomed(nodes, targets, k, 0) {
        var t :| 0 <= t < |nodes| && t in targets && Under(nodes, k, t);
        var m := OutermostAbove(nodes, targets, t);
        UnderTransitive(nodes, k, t, m);
        OutermostTakesAll(nodes, targets, m, k);
      } else {
        OnlyDoomedDetached(nodes, targets, 0, k);
      }
    }
  }

  lemma {:induction false} TargetStacksNeeded(nodes: seq<Node>, targets: set<nat>)
    requires Forest(nodes) && Stacked(nodes) && !StacksAreTargets(nodes, targets)
    ensures RunFrom(nodes, targets, 0) != Survivors(nodes, targets, 0)
  {
    hide Forest, Stacked, Under, RunFrom;
    var m :| 0 <= m < |nodes| && Outermost(nodes, targets, m) && !StackIsTargets(nodes, targets, m);
    var c :| m < c < |nodes| && nodes[c].mountPoint == nodes[m].mountPoint && c !in targets;
    var k := StackOutlastsCalls(nodes, targets, m, c, m + 1);
    assert !HitsOwn(nodes, targets, m);
    MissedOutermostStays(nodes, targets, m, 0);
    UnderItself(nodes, m);
    assert Doomed(nodes, targets, m, 0);
  }

  /** However the targets lie, the pass leaves exactly the mounts that neither are targets
      nor lie below one if and only if only targets are stacked on the outermost targets. */
  lemma {:induction false} PassIsRightIffStacksAreTargets(nodes: seq<Node>, targets: set<nat>)
    requires Forest(nodes) && Stacked(nodes)
    ensures RunFrom(nodes, targets, 0) == Survivors(nodes, targets, 0) <==> StacksAreTargets(nodes, targets)
  {
    if StacksAreTargets(nodes, targets) {
      TargetStacksSuffice(nodes, targets);
    } else {
      TargetStacksNeeded(nodes, targets);
    }
  }
}
