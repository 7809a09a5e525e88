/** Reports per affiliate company, a company being a top-level folder: stats_service.py against the catalog filter. */
module CompanyReports {
  import opened Options
  import opened FolderForest
  import opened FolderIndex

  datatype Report = Report(id: int, folder: Option<int>)

  /** `company_report_ids` */
  function CompanyReportIds(reports: seq<Report>, company: int, parents: Parents): set<int> {
    set r | r in reports && StatsRoot(parents, r.folder) == Some(company) :: r.id
  }

  /** The root-folder filter of `catalog`. */
  function CatalogIds(reports: seq<Report>, root: int, descendants: map<int, set<int>>): set<int> {
    if root !in descendants || descendants[root] == {} then {}
    else set r | r in reports && r.folder.Some? && r.folder.value in descendants[root] :: r.id
  }

  /** Report rows point at existing folders; a foreign key of the schema. */
  ghost predicate Filed(reports: seq<Report>, parents: Parents) {
    forall r :: r in reports && r.folder.Some? ==> r.folder.value in parents
  }

  /** The statistics and the catalog agree on the reports of every company, whatever the other folders look like. */
  lemma StatisticsAndCatalogAgree(reports: seq<Report>, company: int, parents: Parents, descendants: map<int, set<int>>)
    requires Filed(reports, parents)
    requires company in parents && parents[company].None?
    requires company in descendants && IsSubtree(parents, company, descendants[company])
    ensures CompanyReportIds(reports, company, parents) == CatalogIds(reports, company, descendants)
  {
    hide StatsWalk, Above;
    AboveSelf(parents, company);
    forall r | r in reports && r.folder.Some?
      ensures StatsRoot(parents, r.folder) == Some(company) <==> r.folder.value in descendants[company]
    {
      TopLevelSelectsTheSame(parents, company, r.folder.value);
    }
  }

  // ---------------------------------------------------------------- counting

  function CountAt(reports: seq<Report>, parents: Parents, root: Option<int>): nat {
    if reports == [] then 0
    else
      var n := |reports| - 1;
      CountAt(reports[..n], parents, root) + if StatsRoot(parents, reports[n].folder) == root then 1 else 0
  }

  ghost function Total(counts: map<Option<int>, nat>): nat {
    if counts == map[] then 0
    else
      var k :| k in counts;
      counts[k] + Total(counts - {k})
  }

  lemma {:induction false} TotalSplits(counts: map<Option<int>, nat>, k: Option<int>)
    requires k in counts
    ensures Total(counts) == counts[k] + Total(counts - {k})
    decreases |counts|
  {
    var j :| j in counts && Total(counts) == counts[j] + Total(counts - {j});
    if j != k {
      TotalSplits(counts - {j}, k);
      TotalSplits(counts - {k}, j);
      assert counts - {j} - {k} == counts - {k} - {j};
    }
  }

  lemma TotalOfUpdate(counts: map<Option<int>, nat>, k: Option<int>, v: nat)
    ensures Total(counts[k := v]) == Total(counts) - (if k in counts then counts[k] else 0) + v
  {
    var after := counts[k := v];
    TotalSplits(after, k);
    assert after - {k} == counts - {k};
    if k in counts {
      TotalSplits(counts, k);
    } else {
      assert counts - {k} == counts;
    }
  }

  /** `_reports_by_company`: the per-company counts, before they are labelled and sorted for display. */
  method ReportsByCompany(reports: seq<Report>, parents: Parents) returns (counts: map<Option<int>, nat>)
    ensures forall k :: k in counts <==> exists r :: r in reports && StatsRoot(parents, r.folder) == k
    ensures forall k :: k in counts ==> counts[k] == CountAt(reports, parents, k) > 0
    ensures Total(counts) == |reports|
  {
    hide StatsRoot, Total;
    counts := map[];
    assert Total(counts) == 0 by { EmptyTotal(); }
    for n := 0 to |reports|
      invariant forall k :: k in counts <==> CountAt(reports[..n], parents, k) > 0
      invariant forall k :: k in counts ==> counts[k] == CountAt(reports[..n], parents, k)
      invariant Total(counts) == n
    {
      var root := RootFolderId(reports[n].folder, parents);
      assert reports[..n + 1][..n] == reports[..n];
      var count := (if root in counts then counts[root] else 0) + 1;
      TotalOfUpdate(counts, root, count);
      counts := counts[root := count];
    }
    assert reports[..|reports|] == reports;
    forall k ensures k in counts <==> exists r :: r in reports && StatsRoot(parents, r.folder) == k {
      CountedSomewhere(reports, parents, k);
    }
  }

  lemma EmptyTotal()
    ensures Total(map[]) == 0
  {}

  lemma {:induction false} CountedSomewhere(reports: seq<Report>, parents: Parents, root: Option<int>)
    ensures CountAt(reports, parents, root) > 0 <==> exists r :: r in reports && StatsRoot(parents, r.folder) == root
    decreases |reports|
  {
    hide StatsRoot;
    if reports != [] {
      var front, last := reports[..|reports| - 1], reports[|reports| - 1];
      assert reports == front + [last];
      CountedSomewhere(front, parents, root);
    }
  }

  lemma IdsOfOneMore(front: seq<Report>, last: Report, company: int, parents: Parents)
    ensures CompanyReportIds(front + [last], company, parents)
            == CompanyReportIds(front, company, parents)
               + (if StatsRoot(parents, last.folder) == Some(company) then {last.id} else {})
  {
    hide StatsRoot;
    var reports := front + [last];
    assert forall r :: r in reports <==> r in front || r == last;
  }

  /** A company's count is the number of its reports. */
  lemma {:induction false} CountIsSize(reports: seq<Report>, parents: Parents, company: int)
    requires forall i, j :: 0 <= i < j < |reports| ==> reports[i].id != reports[j].id
    ensures CountAt(reports, parents, Some(company)) == |CompanyReportIds(reports, company, parents)|
    decreases |reports|
  {
    hide StatsRoot;
    if reports == [] {
      assert CompanyReportIds(reports, company, parents) == {};
    } else {
      var front, last := reports[..|reports| - 1], reports[|reports| - 1];
      assert reports == front + [last];
      CountIsSize(front, parents, company);
      IdsOfOneMore(front, last, company, parents);
      assert last.id !in CompanyReportIds(front, company, parents);
    }
  }

  /** On a forest every counted root is a company, or the reports without a folder. */
  lemma CountedRootsAreCompanies(reports: seq<Report>, parents: Parents, r: Report)
    requires IsForest(parents) && Filed(reports, parents) && r in reports
    ensures var root := StatsRoot(parents, r.folder);
            root == None || (root.value in parents && parents[root.value].None?)
  {
    if r.folder.Some? {
      ForestRoots(parents, r.folder.value);
    }
  }
}
