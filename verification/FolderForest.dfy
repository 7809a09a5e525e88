/**
 Report folders as a parent-pointer structure, and the three independent ways the backend walks it:
 the discovery index (report_discovery_service.py), the statistics root walk (stats_service.py) and the
 root walk of the audit snapshot (audit_service.py).  Parent pointers may dangle or run in a cycle.
 */
module FolderForest {
  import opened Options

  datatype Folder = Folder(id: int, parent: Option<int>, name: string)

  type Parents = map<int, Option<int>>

  // ---------------------------------------------------------------- the reference relation

  /** The folder `n` steps above `f`; None once the walk leaves the known folders. */
  ghost function Up(parents: Parents, f: int, n: nat): Option<int>
    decreases n
  {
    if f !in parents then None
    else if n == 0 then Some(f)
    else match parents[f]
         case None => None
         case Some(p) => Up(parents, p, n - 1)
  }

  /** `f` is `g` itself or lies above it. */
  ghost predicate Above(parents: Parents, f: int, g: int) {
    exists n: nat :: Up(parents, g, n) == Some(f)
  }

  /** Every parent is a known folder, and no folder is above its own parent. */
  ghost predicate IsForest(parents: Parents) {
    forall f :: f in parents && parents[f].Some? ==> parents[f].value in parents && !Above(parents, f, parents[f].value)
  }

  /** Folders whose parents are known and came before them make a forest. */
  lemma OlderParentsMakeForest(parents: Parents)
    requires forall f :: f in parents && parents[f].Some? ==> parents[f].value in parents && parents[f].value < f
    ensures IsForest(parents)
  {
    forall f | f in parents && parents[f].Some? ensures !Above(parents, f, parents[f].value) {
      if Above(parents, f, parents[f].value) {
        var n: nat :| Up(parents, parents[f].value, n) == Some(f);
        UpIsOlder(parents, parents[f].value, n);
      }
    }
  }

  lemma {:induction false} UpIsOlder(parents: Parents, f: int, n: nat)
    requires forall f :: f in parents && parents[f].Some? ==> parents[f].value in parents && parents[f].value < f
    ensures Up(parents, f, n).Some? ==> Up(parents, f, n).value <= f
    decreases n
  {
    if f in parents && n > 0 && parents[f].Some? {
      UpIsOlder(parents, parents[f].value, n - 1);
    }
  }

  lemma AboveParent(parents: Parents, f: int, g: int)
    requires g in parents && parents[g].Some? && Above(parents, f, parents[g].value)
    ensures Above(parents, f, g)
  {
    var n: nat :| Up(parents, parents[g].value, n) == Some(f);
    assert Up(parents, g, n + 1) == Some(f);
  }

  lemma AboveSelf(parents: Parents, g: int)
    requires g in parents
    ensures Above(parents, g, g)
  {
    assert Up(parents, g, 0) == Some(g);
  }

  // ---------------------------------------------------------------- the chain walk of the discovery index

  /** The folders `resolve` visits from `current` on, nearest first, never entering `seen`. */
  function Chain(parents: Parents, current: Option<int>, seen: set<int>): (chain: seq<int>)
    ensures forall k :: 0 <= k < |chain| ==> chain[k] in parents
    decreases |parents.Keys - seen|
  {
    if current.None? || current.value !in parents || current.value in seen then []
    else
      var c := current.value;
      Shrinks(parents.Keys, seen, c);
      [c] + Chain(parents, parents[c], seen + {c})
  }

  lemma Shrinks(all: set<int>, seen: set<int>, c: int)
    requires c in all && c !in seen
    ensures all - (seen + {c}) < all - seen
    ensures |all - (seen + {c})| < |all - seen|
  {
    assert all - (seen + {c}) == (all - seen) - {c};
  }

  lemma ChainUnrolls(parents: Parents, c: int, seen: set<int>)
    requires c in parents && c !in seen
    ensures Chain(parents, Some(c), seen) == [c] + Chain(parents, parents[c], seen + {c})
    ensures |parents.Keys - (seen + {c})| < |parents.Keys - seen|
  {
    Shrinks(parents.Keys, seen, c);
  }

  lemma ChainStops(parents: Parents, current: Option<int>, seen: set<int>)
    requires current.None? || current.value !in parents || current.value in seen
    ensures Chain(parents, current, seen) == []
  {}

  /** What one walk visits is closed under taking parents, together with what it had seen. */
  ghost predicate ClosedUp(parents: Parents, s: set<int>, next: Option<int>) {
    forall f :: f in s && f in parents ==> parents[f].None? || parents[f] == next || parents[f].value in s
  }

  lemma {:induction false} ChainCloses(parents: Parents, current: Option<int>, seen: set<int>)
    requires ClosedUp(parents, seen, current)
    ensures var chain := Chain(parents, current, seen);
            forall f :: f in parents && (f in chain || f in seen) && parents[f].Some? && parents[f].value in parents
              ==> parents[f].value in chain || parents[f].value in seen
    decreases |parents.Keys - seen|
  {
    if current.Some? && current.value in parents && current.value !in seen {
      Shrinks(parents.Keys, seen, current.value);
      ChainCloses(parents, parents[current.value], seen + {current.value});
    }
  }

  lemma {:induction false} ChainIsAbove(parents: Parents, current: Option<int>, seen: set<int>, f: int)
    requires f in Chain(parents, current, seen)
    ensures current.Some? && f in parents && f !in seen && Above(parents, f, current.value)
    decreases |parents.Keys - seen|
  {
    var c := current.value;
    if f == c {
      AboveSelf(parents, c);
    } else {
      Shrinks(parents.Keys, seen, c);
      ChainIsAbove(parents, parents[c], seen + {c}, f);
      AboveParent(parents, f, c);
    }
  }

  lemma {:induction false} ClosedKeepsUp(parents: Parents, chain: seq<int>, g: int, n: nat)
    requires g in chain
    requires forall f :: f in parents && f in chain && parents[f].Some? && parents[f].value in parents
               ==> parents[f].value in chain
    ensures Up(parents, g, n).Some? ==> Up(parents, g, n).value in chain
    decreases n
  {
    if n > 0 && Up(parents, g, n).Some? {
      assert Up(parents, parents[g].value, n - 1).Some?;
      ClosedKeepsUp(parents, chain, parents[g].value, n - 1);
    }
  }

  function ChainOf(parents: Parents, g: int): seq<int> {
    Chain(parents, Some(g), {})
  }

  lemma ChainStartsHere(parents: Parents, g: int)
    requires g in parents
    ensures var chain := ChainOf(parents, g); chain != [] && chain[0] == g && chain[|chain| - 1] in parents
  {}

  /** The chain walk visits exactly what lies above, cycles included. */
  lemma ChainIsExactlyAbove(parents: Parents, g: int, f: int)
    requires g in parents
    ensures f in ChainOf(parents, g) <==> Above(parents, f, g)
  {
    if f in ChainOf(parents, g) {
      ChainIsAbove(parents, Some(g), {}, f);
    }
    if Above(parents, f, g) {
      ChainCloses(parents, Some(g), {});
      var n: nat :| Up(parents, g, n) == Some(f);
      ClosedKeepsUp(parents, ChainOf(parents, g), g, n);
    }
  }

  /** The root `resolve` reports: the last folder of the chain. */
  function DiscoveryRoot(parents: Parents, g: int): int
    requires g in parents
  {
    var chain := ChainOf(parents, g);
    chain[|chain| - 1]
  }

  // ---------------------------------------------------------------- the statistics root walk

  function StatsWalk(parents: Parents, cur: int, seen: set<int>): int
    decreases |parents.Keys - seen|
  {
    if cur in parents && parents[cur].Some? && cur !in seen then
      Shrinks(parents.Keys, seen, cur);
      StatsWalk(parents, parents[cur].value, seen + {cur})
    else cur
  }

  /** `_root_folder_id` as a value. */
  function StatsRoot(parents: Parents, folder: Option<int>): Option<int> {
    match folder
    case None => None
    case Some(f) => Some(StatsWalk(parents, f, {}))
  }

  /** `_root_folder_id` */
  method RootFolderId(folder: Option<int>, parents: Parents) returns (root: Option<int>)
    ensures root == StatsRoot(parents, folder)
  {
    if folder.None? { return None; }
    var seen: set<int> := {};
    var cur := folder.value;
    while cur in parents && parents[cur].Some? && cur !in seen
      invariant StatsWalk(parents, cur, seen) == StatsWalk(parents, folder.value, {})
      decreases |parents.Keys - seen|
    {
      Shrinks(parents.Keys, seen, cur);
      seen, cur := seen + {cur}, parents[cur].value;
    }
    return Some(cur);
  }

  // ---------------------------------------------------------------- the audit snapshot's root walk

  function AuditWalk(parents: Parents, folder: Option<int>, seen: set<int>, root: Option<int>): Option<int>
    decreases |parents.Keys - seen|
  {
    if folder.Some? && folder.value !in seen && folder.value in parents then
      Shrinks(parents.Keys, seen, folder.value);
      AuditWalk(parents, parents[folder.value], seen + {folder.value}, folder)
    else root
  }

  /** The company folder `build_audit_snapshot` records, as a value. */
  function AuditRoot(parents: Parents, folder: Option<int>): Option<int> {
    AuditWalk(parents, folder, {}, None)
  }

  /** The root walk inside `build_audit_snapshot`. */
  method SnapshotRoot(reportFolder: Option<int>, parents: Parents) returns (root: Option<int>)
    ensures root == AuditRoot(parents, reportFolder)
  {
    root := None;
    var folder := reportFolder;
    var seen: set<int> := {};
    while folder.Some? && folder.value !in seen
      invariant AuditWalk(parents, folder, seen, root) == AuditRoot(parents, reportFolder)
      invariant seen <= parents.Keys
      decreases |parents.Keys - seen|
    {
      var id := folder.value;
      if id !in parents { break; }
      Shrinks(parents.Keys, seen, id);
      seen, root, folder := seen + {id}, Some(id), parents[id];
    }
  }

  // ---------------------------------------------------------------- the three walks agree

  lemma {:induction false} AuditFollowsChain(parents: Parents, folder: Option<int>, seen: set<int>, root: Option<int>)
    ensures var chain := Chain(parents, folder, seen);
            AuditWalk(parents, folder, seen, root) == if chain == [] then root else Some(chain[|chain| - 1])
    decreases |parents.Keys - seen|
  {
    if folder.Some? && folder.value !in seen && folder.value in parents {
      var c := folder.value;
      Shrinks(parents.Keys, seen, c);
      AuditFollowsChain(parents, parents[c], seen + {c}, folder);
    }
  }

  /** The discovery root and the audit root are the same folder, on every parent map. */
  lemma AuditRootIsDiscoveryRoot(parents: Parents, g: int)
    requires g in parents
    ensures AuditRoot(parents, Some(g)) == Some(DiscoveryRoot(parents, g))
  {
    AuditFollowsChain(parents, Some(g), {}, None);
  }

  lemma {:induction false} StatsFollowsChain(parents: Parents, cur: int, seen: set<int>)
    requires cur in parents && cur !in seen
    requires forall f :: f in seen && f in parents ==> parents[f].Some?
    ensures var chain := Chain(parents, Some(cur), seen);
            var last := chain[|chain| - 1];
            last in parents &&
            StatsWalk(parents, cur, seen) == match parents[last] case None => last case Some(q) => q
    decreases |parents.Keys - seen|
  {
    Shrinks(parents.Keys, seen, cur);
    if parents[cur].Some? {
      var p := parents[cur].value;
      if p in parents && p !in seen + {cur} {
        StatsFollowsChain(parents, p, seen + {cur});
      }
    }
  }

  /** The statistics root is the discovery root, or what the discovery root's parent pointer names. */
  lemma StatsRootFromDiscoveryRoot(parents: Parents, g: int)
    requires g in parents
    ensures var root := DiscoveryRoot(parents, g);
            root in parents &&
            StatsRoot(parents, Some(g)) == Some(match parents[root] case None => root case Some(q) => q)
  {
    StatsFollowsChain(parents, g, {});
  }

  /** Nothing lies above the folder but itself. */
  predicate IsTop(parents: Parents, top: int) {
    top in parents && (parents[top].None? || parents[top] == Some(top))
  }

  lemma {:induction false} RootIsLast(parents: Parents, current: Option<int>, seen: set<int>, top: int)
    requires top in Chain(parents, current, seen)
    requires IsTop(parents, top)
    ensures var chain := Chain(parents, current, seen); chain[|chain| - 1] == top
    decreases |parents.Keys - seen|
  {
    var c := current.value;
    Shrinks(parents.Keys, seen, c);
    if c != top {
      RootIsLast(parents, parents[c], seen + {c}, top);
    }
  }

  /** The statistics attribute a report to the folder the discovery index shows exactly below a topmost folder. */
  lemma RootsAgreeIff(parents: Parents, g: int)
    requires g in parents
    ensures StatsRoot(parents, Some(g)) == Some(DiscoveryRoot(parents, g)) <==>
            exists top :: IsTop(parents, top) && Above(parents, top, g)
  {
    hide Above;
    StatsRootFromDiscoveryRoot(parents, g);
    var root := DiscoveryRoot(parents, g);
    ChainIsAbove(parents, Some(g), {}, root);
    if top :| IsTop(parents, top) && Above(parents, top, g) {
      ChainIsExactlyAbove(parents, g, top);
      RootIsLast(parents, Some(g), {}, top);
    }
  }

  /**
   * They do differ on a two-folder cycle.  So they would below an unknown parent, which the walks allow for
   * although the foreign key of report_folders rules it out.
   */
  lemma RootsCanDiffer()
    ensures var cycle: Parents := map[1 := Some(2), 2 := Some(1)];
            DiscoveryRoot(cycle, 1) == 2 && StatsRoot(cycle, Some(1)) == Some(1)
    ensures var dangling: Parents := map[1 := Some(9)];
            DiscoveryRoot(dangling, 1) == 1 && StatsRoot(dangling, Some(1)) == Some(9)
  {
    var cycle: Parents := map[1 := Some(2), 2 := Some(1)];
    assert Chain(cycle, Some(1), {1} + {2}) == [];
    assert Chain(cycle, Some(2), {} + {1}) == [2];
    assert Chain(cycle, Some(1), {}) == [1] + [2];
    StatsRootFromDiscoveryRoot(cycle, 1);
    var dangling: Parents := map[1 := Some(9)];
    assert Chain(dangling, Some(9), {} + {1}) == [];
    assert Chain(dangling, Some(1), {}) == [1];
    StatsRootFromDiscoveryRoot(dangling, 1);
  }

  lemma {:induction false} ChainEnd(parents: Parents, g: int, seen: set<int>)
    requires g in parents && g !in seen && ClosedUp(parents, seen, Some(g))
    ensures var chain := Chain(parents, Some(g), seen);
            var last := chain[|chain| - 1];
            last in parents && (parents[last].Some? && parents[last].value in parents ==>
              parents[last].value in chain || parents[last].value in seen)
    decreases |parents.Keys - seen|
  {
    ChainCloses(parents, Some(g), seen);
    var chain := Chain(parents, Some(g), seen);
    ChainIsAbove(parents, Some(g), seen, chain[|chain| - 1]);
  }

  /**
   * Below a top-level folder all the walks select the same folders, cycles and dangling parents elsewhere
   * notwithstanding: being underneath, having it as discovery root, as audit root, as statistics root.
   */
  lemma TopLevelSelectsTheSame(parents: Parents, top: int, g: int)
    requires top in parents && parents[top].None? && g in parents
    ensures Above(parents, top, g) <==> DiscoveryRoot(parents, g) == top
    ensures Above(parents, top, g) <==> StatsRoot(parents, Some(g)) == Some(top)
    ensures Above(parents, top, g) <==> AuditRoot(parents, Some(g)) == Some(top)
  {
    AuditRootIsDiscoveryRoot(parents, g);
    StatsRootFromDiscoveryRoot(parents, g);
    ChainIsExactlyAbove(parents, g, top);
    var root := DiscoveryRoot(parents, g);
    if top in ChainOf(parents, g) { RootIsLast(parents, Some(g), {}, top); }
    ChainEnd(parents, g, {});
  }

  /** On a forest every walk ends at a folder without a parent, so all three roots coincide. */
  lemma ForestRoots(parents: Parents, g: int)
    requires IsForest(parents) && g in parents
    ensures var root := DiscoveryRoot(parents, g);
            root in parents && parents[root].None? && Above(parents, root, g)
    ensures StatsRoot(parents, Some(g)) == AuditRoot(parents, Some(g)) == Some(DiscoveryRoot(parents, g))
  {
    var root := DiscoveryRoot(parents, g);
    ChainIsAbove(parents, Some(g), {}, root);
    if parents[root].Some? {
      var p := parents[root].value;
      ChainEnd(parents, g, {});
      LastIsAbove(parents, Some(g), {}, p);
      assert false;
    }
    TopLevelSelectsTheSame(parents, root, g);
  }

  /** The last folder of a chain is above every folder of it. */
  lemma {:induction false} LastIsAbove(parents: Parents, current: Option<int>, seen: set<int>, f: int)
    requires f in Chain(parents, current, seen)
    ensures var chain := Chain(parents, current, seen); Above(parents, chain[|chain| - 1], f)
    decreases |parents.Keys - seen|
  {
    var c := current.value;
    Shrinks(parents.Keys, seen, c);
    var chain := Chain(parents, current, seen);
    if f == c {
      ChainIsAbove(parents, current, seen, chain[|chain| - 1]);
    } else {
      LastIsAbove(parents, parents[c], seen + {c}, f);
    }
  }
}
