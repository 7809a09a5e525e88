/**
 The `folder_roots` query of migration a4e9c7d2f613, which fills the company columns of old events: a recursive
 common table expression that spreads from the top-level folders down.
 */
module SnapshotRoots {
  import opened FolderForest
  import opened FolderIndex
  import opened Options

  /** `g` has a top-level folder above it. */
  ghost predicate UnderTop(parents: Parents, top: int, g: int) {
    top in parents && parents[top].None? && Above(parents, top, g)
  }

  /** What the rows collected so far say, `working` being those of the last round. */
  ghost predicate Spread(parents: Parents, roots: map<int, int>, working: set<int>) {
    && working <= roots.Keys <= parents.Keys
    && (forall g :: g in roots ==> UnderTop(parents, roots[g], g))
    && (forall g :: g in roots ==> parents[g].None? || parents[g].value in roots.Keys - working)
    && (forall g :: g in parents && parents[g].None? ==> g in roots)
    && (forall g :: g in parents && parents[g].Some? && parents[g].value in roots.Keys - working ==> g in roots)
  }

  /** The folders joined to the rows of the last round. */
  function Below(parents: Parents, working: set<int>): set<int> {
    set g | g in parents && parents[g].Some? && parents[g].value in working
  }

  function Joined(parents: Parents, roots: map<int, int>, working: set<int>): (roots': map<int, int>)
    requires working <= roots.Keys
    ensures roots'.Keys == roots.Keys + Below(parents, working)
  {
    roots + map g | g in Below(parents, working) :: roots[parents[g].value]
  }

  lemma SpreadBounds(parents: Parents, roots: map<int, int>, working: set<int>)
    requires Spread(parents, roots, working)
    ensures working <= roots.Keys <= parents.Keys
  {}

  /** UNION ALL never yields a folder twice. */
  lemma SpreadStep(parents: Parents, roots: map<int, int>, working: set<int>)
    requires Spread(parents, roots, working) && working <= roots.Keys
    ensures var next := Below(parents, working);
            next !! roots.Keys && next <= parents.Keys && Spread(parents, Joined(parents, roots, working), next)
  {
    hide Above;
    var next, roots' := Below(parents, working), Joined(parents, roots, working);
    forall g | g in next ensures UnderTop(parents, roots'[g], g) {
      AboveParent(parents, roots[parents[g].value], g);
    }
  }

  /** `folder_roots`: each folder below a top-level one, with that top-level folder. */
  method FolderRoots(parents: Parents) returns (roots: map<int, int>)
    ensures forall g, top :: UnderTop(parents, top, g) <==> g in roots && roots[g] == top
  {
    hide Above, UnderTop, Spread, Below, Joined;
    roots := map f | f in parents && parents[f].None? :: f;
    var working := roots.Keys;
    TopsSpread(parents, roots);
    while working != {}
      invariant Spread(parents, roots, working)
      decreases |parents.Keys - roots.Keys|, |working|
    {
      SpreadBounds(parents, roots, working);
      SpreadStep(parents, roots, working);
      FewerLeft(parents.Keys, roots.Keys, Below(parents, working));
      roots, working := Joined(parents, roots, working), Below(parents, working);
    }
    SpreadIsComplete(parents, roots);
  }

  lemma TopsSpread(parents: Parents, roots: map<int, int>)
    requires roots == map f | f in parents && parents[f].None? :: f
    ensures Spread(parents, roots, roots.Keys)
  {
    forall f | f in roots ensures Above(parents, f, f) { AboveSelf(parents, f); }
  }

  lemma FewerLeft(all: set<int>, done: set<int>, next: set<int>)
    requires next <= all && next !! done
    ensures |all - (done + next)| == |all - done| - |next|
  {
    assert all - done == (all - (done + next)) + next;
  }

  lemma SpreadIsComplete(parents: Parents, roots: map<int, int>)
    requires Spread(parents, roots, {})
    ensures forall g, top :: UnderTop(parents, top, g) <==> g in roots && roots[g] == top
  {
    hide Above;
    assert roots.Keys - {} == roots.Keys;
    forall g, top | UnderTop(parents, top, g) ensures g in roots && roots[g] == top {
      ClosedBelow(parents, roots.Keys, top, g);
      TopLevelSelectsTheSame(parents, top, g);
      TopLevelSelectsTheSame(parents, roots[g], g);
    }
  }

  /**
   * The company an old event is filed under is the statistics root of the report's folder, whenever there is one;
   * none is recorded exactly where the discovery root is no top-level folder.
   */
  lemma SnapshotIsStatsRoot(parents: Parents, roots: map<int, int>, g: int)
    requires g in parents && forall f, top :: UnderTop(parents, top, f) <==> f in roots && roots[f] == top
    ensures g in roots <==> parents[DiscoveryRoot(parents, g)].None?
    ensures g in roots ==> StatsRoot(parents, Some(g)) == AuditRoot(parents, Some(g)) == Some(roots[g])
  {
    hide Above;
    var root := DiscoveryRoot(parents, g);
    ChainStartsHere(parents, g);
    ChainIsAbove(parents, Some(g), {}, root);
    assert UnderTop(parents, root, g) <==> g in roots && roots[g] == root;
    if g in roots {
      assert UnderTop(parents, roots[g], g);
      TopLevelSelectsTheSame(parents, roots[g], g);
    }
  }

  lemma OnlyFolders(parents: Parents, roots: map<int, int>, g: int)
    requires forall f, top :: UnderTop(parents, top, f) <==> f in roots && roots[f] == top
    requires g in roots
    ensures g in parents && roots[g] in parents
  {
    assert UnderTop(parents, roots[g], g);
    var n: nat :| Up(parents, g, n) == Some(roots[g]);
  }
}
