/**
 `load_folder_context` of report_discovery_service.py: paths and roots by a memoised chain walk,
 descendants by a depth-first search with an explicit stack.
 */
module FolderIndex {
  import opened Options
  import opened FolderForest
  import opened Texts

  const PATH_SEPARATOR := " / "

  type FolderTable = m: map<int, Folder> | forall id :: id in m ==> m[id].id == id witness map[]

  datatype FolderContext = FolderContext(
    paths: map<int, string>, roots: map<int, (int, string)>, descendants: map<int, set<int>>)

  function ParentMap(table: FolderTable): Parents {
    map id | id in table :: table[id].parent
  }

  function RootFirstNames(chain: seq<Folder>): seq<string> {
    if chain == [] then [] else RootFirstNames(chain[1..]) + [chain[0].name]
  }

  function Folders(table: FolderTable, chain: seq<int>): (folders: seq<Folder>)
    requires forall k :: 0 <= k < |chain| ==> chain[k] in table
    ensures |folders| == |chain| && forall k :: 0 <= k < |chain| ==> folders[k] == table[chain[k]]
  {
    seq(|chain|, k requires 0 <= k < |chain| => table[chain[k]])
  }

  /** The breadcrumb of a folder: the names of its chain, outermost first. */
  function PathOf(table: FolderTable, g: int): string
    requires g in table
  {
    Join(RootFirstNames(Folders(table, ChainOf(ParentMap(table), g))), PATH_SEPARATOR)
  }

  function RootOf(table: FolderTable, g: int): (int, string)
    requires g in table
  {
    var root := DiscoveryRoot(ParentMap(table), g);
    (root, table[root].name)
  }

  /** What `paths` and `roots` may hold so far. */
  ghost predicate Memo(table: FolderTable, paths: map<int, string>, roots: map<int, (int, string)>) {
    paths.Keys == roots.Keys <= table.Keys &&
    forall f :: f in paths ==> paths[f] == PathOf(table, f) && roots[f] == RootOf(table, f)
  }

  lemma FoldersGrow(table: FolderTable, ids: seq<int>, c: int)
    requires c in table && forall k :: 0 <= k < |ids| ==> ids[k] in table
    ensures Folders(table, ids + [c]) == Folders(table, ids) + [table[c]]
  {}

  lemma Regroup(ids: seq<int>, c: int, rest: seq<int>)
    ensures (ids + [c]) + rest == ids + ([c] + rest)
  {}

  /** The chain walk inside `resolve`. */
  method WalkUp(table: FolderTable, folderId: int) returns (chain: seq<Folder>)
    requires folderId in table
    ensures chain == Folders(table, ChainOf(ParentMap(table), folderId))
  {
    hide Chain, Folders;
    ghost var parents := ParentMap(table);
    chain := [];
    ghost var ids: seq<int> := [];
    var seen: set<int> := {};
    var current := Some(folderId);
    while current.Some? && current.value in table && current.value !in seen
      invariant forall k :: 0 <= k < |ids| ==> ids[k] in table
      invariant chain == Folders(table, ids)
      invariant ids + Chain(parents, current, seen) == ChainOf(parents, folderId)
      decreases |parents.Keys - seen|
    {
      var c := current.value;
      ChainUnrolls(parents, c, seen);
      FoldersGrow(table, ids, c);
      Regroup(ids, c, Chain(parents, parents[c], seen + {c}));
      seen, chain, ids := seen + {c}, chain + [table[c]], ids + [c];
      current := table[c].parent;
    }
    assert Chain(parents, current, seen) == [] by { ChainStops(parents, current, seen); }
    assert ids + [] == ids;
  }

  lemma Resolved(table: FolderTable, id: int, chain: seq<Folder>)
    requires id in table && chain == Folders(table, ChainOf(ParentMap(table), id))
    ensures chain != [] && Join(RootFirstNames(chain), PATH_SEPARATOR) == PathOf(table, id)
    ensures (chain[|chain| - 1].id, chain[|chain| - 1].name) == RootOf(table, id)
  {
    hide Chain, Join, RootFirstNames;
    var ids := ChainOf(ParentMap(table), id);
    ChainStartsHere(ParentMap(table), id);
    assert chain[|chain| - 1] == table[ids[|ids| - 1]];
  }

  /** The inner function `resolve`, which fills the two dictionaries it closes over. */
  method Resolve(table: FolderTable, folderId: int, paths: map<int, string>, roots: map<int, (int, string)>)
    returns (paths': map<int, string>, roots': map<int, (int, string)>)
    requires folderId in table && Memo(table, paths, roots)
    ensures Memo(table, paths', roots')
    ensures paths'.Keys == paths.Keys + {folderId}
  {
    hide PathOf, RootOf, ChainOf, ParentMap, Join, RootFirstNames;
    paths', roots' := paths, roots;
    if folderId in paths { return; }
    var chain := WalkUp(table, folderId);
    Resolved(table, folderId, chain);
    var root := chain[|chain| - 1];
    paths' := paths'[folderId := Join(RootFirstNames(chain), PATH_SEPARATOR)];
    roots' := roots'[folderId := (root.id, root.name)];
  }

  /** The folders directly below `p`, in display order. */
  function ChildIds(folders: seq<Folder>, p: int): seq<int> {
    if folders == [] then []
    else
      var last := folders[|folders| - 1];
      ChildIds(folders[..|folders| - 1], p) + if last.parent == Some(p) then [last.id] else []
  }

  lemma OneMoreFolder(folders: seq<Folder>, f: Folder, p: int)
    ensures ChildIds(folders + [f], p) == ChildIds(folders, p) + if f.parent == Some(p) then [f.id] else []
  {
    assert (folders + [f])[..|folders|] == folders;
  }

  function Siblings(children: map<int, seq<int>>, p: int): seq<int> {
    if p in children then children[p] else []
  }

  lemma OneMoreChild(children: map<int, seq<int>>, front: seq<Folder>, f: Folder)
    requires forall p :: Siblings(children, p) == ChildIds(front, p)
    ensures var p := f.parent;
            var children' := if p.Some? then children[p.value := Siblings(children, p.value) + [f.id]] else children;
            forall q :: Siblings(children', q) == ChildIds(front + [f], q)
  {
    hide ChildIds;
    var p := f.parent;
    var children' := if p.Some? then children[p.value := Siblings(children, p.value) + [f.id]] else children;
    forall q ensures Siblings(children', q) == ChildIds(front + [f], q) {
      OneMoreFolder(front, f, q);
      assert Siblings(children, q) == ChildIds(front, q);
    }
  }

  /** `children` */
  method IndexChildren(folders: seq<Folder>) returns (children: map<int, seq<int>>)
    ensures forall p :: Siblings(children, p) == ChildIds(folders, p)
  {
    children := map[];
    for n := 0 to |folders|
      invariant forall p :: Siblings(children, p) == ChildIds(folders[..n], p)
    {
      hide ChildIds, Siblings;
      var f := folders[n];
      assert folders[..n + 1] == folders[..n] + [f];
      OneMoreChild(children, folders[..n], f);
      if f.parent.Some? {
        children := children[f.parent.value := Siblings(children, f.parent.value) + [f.id]];
      }
    }
    assert folders[..|folders|] == folders;
  }

  ghost predicate TableOf(table: FolderTable, folders: seq<Folder>) {
    forall f :: f in folders <==> f.id in table && table[f.id] == f
  }

  lemma {:induction false} ChildIdsMembers(folders: seq<Folder>, p: int, c: int)
    ensures c in ChildIds(folders, p) <==> exists f :: f in folders && f.id == c && f.parent == Some(p)
    decreases |folders|
  {
    if folders != [] {
      var front, last := folders[..|folders| - 1], folders[|folders| - 1];
      assert folders == front + [last];
      ChildIdsMembers(front, p, c);
    }
  }

  lemma ChildIdsInTable(table: FolderTable, folders: seq<Folder>, p: int, c: int)
    requires TableOf(table, folders)
    ensures c in ChildIds(folders, p) <==> c in table && table[c].parent == Some(p)
  {
    ChildIdsMembers(folders, p, c);
    if c in table && table[c].parent == Some(p) {
      assert table[c] in folders;
    }
  }

  /** `s` holds `start` and everything below it. */
  ghost predicate IsSubtree(parents: Parents, start: int, s: set<int>) {
    forall g :: g in s <==> g in parents && Above(parents, start, g)
  }

  ghost predicate ListsChildren(parents: Parents, children: map<int, seq<int>>) {
    forall p, c :: p in children && c in children[p] <==> c in parents && parents[c] == Some(p)
  }

  lemma BelowHere(parents: Parents, children: map<int, seq<int>>, p: int, c: int)
    requires ListsChildren(parents, children) && p in children && c in children[p]
    ensures c in parents && parents[c] == Some(p)
  {}

  /** The stack search for everything below one folder. */
  method Descendants(ghost parents: Parents, children: map<int, seq<int>>, start: int) returns (result: set<int>)
    requires ListsChildren(parents, children) && start in parents
    ensures IsSubtree(parents, start, result)
  {
    hide Above;
    result := {};
    var stack := [start];
    AboveSelf(parents, start);
    while stack != []
      invariant forall g :: g in result || g in stack ==> g in parents && Above(parents, start, g)
      invariant start in result || start in stack
      invariant forall g :: g in parents && parents[g].Some? && parents[g].value in result ==> g in result || g in stack
      decreases |parents.Keys - result|, |stack|
    {
      var current := stack[|stack| - 1];
      assert stack == stack[..|stack| - 1] + [current];
      stack := stack[..|stack| - 1];
      if current !in result {
        Shrinks(parents.Keys, result, current);
        result := result + {current};
        var below := if current in children then children[current] else [];
        forall g | g in below ensures g in parents && Above(parents, start, g) {
          BelowHere(parents, children, current, g);
          AboveParent(parents, start, g);
        }
        stack := stack + below;
      }
    }
    forall g | g in parents && Above(parents, start, g) ensures g in result {
      ClosedBelow(parents, result, start, g);
    }
  }

  lemma ClosedBelow(parents: Parents, s: set<int>, f: int, g: int)
    requires f in s && forall c :: c in parents && parents[c].Some? && parents[c].value in s ==> c in s
    requires Above(parents, f, g)
    ensures g in s
  {
    var n: nat :| Up(parents, g, n) == Some(f);
    ClosedBelowWithin(parents, s, f, g, n);
  }

  lemma {:induction false} ClosedBelowWithin(parents: Parents, s: set<int>, f: int, g: int, n: nat)
    requires f in s && forall c :: c in parents && parents[c].Some? && parents[c].value in s ==> c in s
    requires Up(parents, g, n) == Some(f)
    ensures g in s
    decreases n
  {
    if n > 0 {
      ClosedBelowWithin(parents, s, f, parents[g].value, n - 1);
    }
  }

  /** `by_id`; the rows have distinct primary keys. */
  method IndexFolders(folders: seq<Folder>) returns (table: FolderTable)
    requires forall i, j :: 0 <= i < j < |folders| ==> folders[i].id != folders[j].id
    ensures TableOf(table, folders)
  {
    table := map[];
    for n := 0 to |folders|
      invariant forall k :: 0 <= k < n ==> folders[k].id in table && table[folders[k].id] == folders[k]
      invariant forall id :: id in table ==> table[id] in folders[..n]
    {
      table := table[folders[n].id := folders[n]];
      assert folders[..n + 1] == folders[..n] + [folders[n]];
    }
    assert folders[..|folders|] == folders;
  }

  method ResolveAll(folders: seq<Folder>, table: FolderTable)
    returns (paths: map<int, string>, roots: map<int, (int, string)>)
    requires TableOf(table, folders)
    ensures Memo(table, paths, roots) && paths.Keys == table.Keys
  {
    hide Memo;
    paths, roots := map[], map[];
    assert Memo(table, paths, roots) by { EmptyMemo(table); }
    for n := 0 to |folders|
      invariant Memo(table, paths, roots)
      invariant forall f :: f in paths <==> f in table && table[f] in folders[..n]
    {
      assert folders[n] in folders;
      assert folders[..n + 1] == folders[..n] + [folders[n]];
      paths, roots := Resolve(table, folders[n].id, paths, roots);
    }
    assert folders[..|folders|] == folders;
    forall f | f in table ensures f in paths {
      assert table[f] in folders;
    }
    assert forall f :: f in paths ==> f in table;
    assert paths.Keys == table.Keys;
  }

  lemma EmptyMemo(table: FolderTable)
    ensures Memo(table, map[], map[])
  {}

  method AllDescendants(folders: seq<Folder>, table: FolderTable, children: map<int, seq<int>>)
    returns (descendants: map<int, set<int>>)
    requires TableOf(table, folders) && ListsChildren(ParentMap(table), children)
    ensures descendants.Keys == table.Keys
    ensures forall f :: f in table ==> IsSubtree(ParentMap(table), f, descendants[f])
  {
    hide IsSubtree, ListsChildren;
    descendants := map[];
    for n := 0 to |folders|
      invariant forall f :: f in descendants <==> f in table && table[f] in folders[..n]
      invariant forall f :: f in descendants ==> IsSubtree(ParentMap(table), f, descendants[f])
    {
      assert folders[n] in folders;
      assert folders[..n + 1] == folders[..n] + [folders[n]];
      var found := Descendants(ParentMap(table), children, folders[n].id);
      descendants := descendants[folders[n].id := found];
    }
    assert folders[..|folders|] == folders;
  }

  /** `load_folder_context`, over the folder rows in display order. */
  method LoadFolderContext(folders: seq<Folder>) returns (table: FolderTable, context: FolderContext)
    requires forall i, j :: 0 <= i < j < |folders| ==> folders[i].id != folders[j].id
    ensures TableOf(table, folders)
    ensures context.paths.Keys == context.roots.Keys == context.descendants.Keys == table.Keys
    ensures forall f :: f in table ==> context.paths[f] == PathOf(table, f) && context.roots[f] == RootOf(table, f)
    ensures forall f, g :: f in table ==>
              (g in context.descendants[f] <==> g in table && Above(ParentMap(table), f, g))
  {
    hide PathOf, RootOf, Above, ChildIds;
    table := IndexFolders(folders);
    var children := IndexChildren(folders);
    forall p, c ensures p in children && c in children[p] <==> c in table && table[c].parent == Some(p) {
      ChildIdsInTable(table, folders, p, c);
    }
    var paths, roots := ResolveAll(folders, table);
    var descendants := AllDescendants(folders, table, children);
    context := FolderContext(paths, roots, descendants);
  }

  // ---------------------------------------------------------------- breadcrumbs

  lemma {:induction false} ChainIgnoresUnvisited(parents: Parents, current: Option<int>, seen: set<int>, g: int)
    requires g !in Chain(parents, current, seen)
    ensures Chain(parents, current, seen + {g}) == Chain(parents, current, seen)
    decreases |parents.Keys - seen|
  {
    if current.Some? && current.value in parents && current.value !in seen {
      var c := current.value;
      Shrinks(parents.Keys, seen, c);
      assert seen + {g} + {c} == seen + {c} + {g};
      ChainIgnoresUnvisited(parents, parents[c], seen + {c}, g);
    }
  }

  lemma {:induction false} JoinLast(names: seq<string>, last: string)
    requires names != []
    ensures Join(names + [last], PATH_SEPARATOR) == Join(names, PATH_SEPARATOR) + PATH_SEPARATOR + last
    decreases |names|
  {
    assert (names + [last])[1..] == names[1..] + [last];
    if |names| > 1 {
      JoinLast(names[1..], last);
    }
  }

  /** A folder's breadcrumb is its parent's with its own name appended, whenever it is not above its parent. */
  lemma PathExtendsParent(table: FolderTable, g: int)
    requires g in table && table[g].parent.Some? && table[g].parent.value in table
    requires !Above(ParentMap(table), g, table[g].parent.value)
    ensures PathOf(table, g) == PathOf(table, table[g].parent.value) + " / " + table[g].name
  {
    var parents, p := ParentMap(table), table[g].parent.value;
    ChainIsExactlyAbove(parents, p, g);
    ChainIgnoresUnvisited(parents, Some(p), {}, g);
    assert {} + {g} == {g};
    var up := ChainOf(parents, p);
    assert ChainOf(parents, g) == [g] + up;
    var all := Folders(table, [g] + up);
    assert all[1..] == Folders(table, up);
    JoinLast(RootFirstNames(Folders(table, up)), table[g].name);
  }

  /** A folder's breadcrumb from its parent pointers alone, stopping at an unknown parent or one already passed. */
  function Breadcrumb(table: FolderTable, g: int, passed: set<int>): string
    requires g in table && g !in passed
    decreases |table.Keys - passed|
  {
    var parent, name := table[g].parent, table[g].name;
    Shrinks(table.Keys, passed, g);
    if parent.Some? && parent.value in table && parent.value != g && parent.value !in passed then
      Breadcrumb(table, parent.value, passed + {g}) + " / " + name
    else name
  }

  lemma {:induction false} ChainSpellsBreadcrumb(table: FolderTable, g: int, passed: set<int>)
    requires g in table && g !in passed
    ensures var chain := Chain(ParentMap(table), Some(g), passed);
            chain != [] && (forall k :: 0 <= k < |chain| ==> chain[k] in table) &&
            Join(RootFirstNames(Folders(table, chain)), PATH_SEPARATOR) == Breadcrumb(table, g, passed)
    decreases |table.Keys - passed|
  {
    hide Chain, Join;
    var parents, parent := ParentMap(table), table[g].parent;
    Shrinks(table.Keys, passed, g);
    ChainUnrolls(parents, g, passed);
    var rest := Chain(parents, parents[g], passed + {g});
    var folders := Folders(table, [g] + rest);
    assert folders == [table[g]] + Folders(table, rest) && folders[1..] == Folders(table, rest);
    if parent.Some? && parent.value in table && parent.value != g && parent.value !in passed {
      ChainSpellsBreadcrumb(table, parent.value, passed + {g});
      assert RootFirstNames(Folders(table, rest)) != [] by { NamesOfSome(Folders(table, rest)); }
      JoinLast(RootFirstNames(Folders(table, rest)), table[g].name);
    } else {
      ChainStops(parents, parents[g], passed + {g});
      assert RootFirstNames(folders) == [] + [table[g].name] == [table[g].name];
      JoinOne(table[g].name);
    }
  }

  lemma NamesOfSome(folders: seq<Folder>)
    ensures |RootFirstNames(folders)| == |folders|
  {}

  lemma JoinOne(name: string)
    ensures Join([name], PATH_SEPARATOR) == name
  {}

  /** The breadcrumb of every folder, cycles and unknown parents included. */
  lemma PathIsBreadcrumb(table: FolderTable, g: int)
    requires g in table
    ensures PathOf(table, g) == Breadcrumb(table, g, {})
  {
    ChainSpellsBreadcrumb(table, g, {});
  }

  /** A folder without a parent, or whose parent is unknown or itself, is its own breadcrumb. */
  lemma TopPathIsName(table: FolderTable, g: int)
    requires g in table
    requires table[g].parent.None? || table[g].parent.value !in table || table[g].parent == Some(g)
    ensures PathOf(table, g) == table[g].name
  {
    PathIsBreadcrumb(table, g);
  }

  /** Two folders inside each other: each breadcrumb names the other folder and then its own. */
  lemma CyclePath(a: string, b: string)
    ensures var table: FolderTable := map[1 := Folder(1, Some(2), a), 2 := Folder(2, Some(1), b)];
            PathOf(table, 1) == b + " / " + a && PathOf(table, 2) == a + " / " + b
  {
    var table: FolderTable := map[1 := Folder(1, Some(2), a), 2 := Folder(2, Some(1), b)];
    PathIsBreadcrumb(table, 1);
    PathIsBreadcrumb(table, 2);
    assert Breadcrumb(table, 2, {} + {1}) == b && Breadcrumb(table, 1, {} + {2}) == a;
  }
}
