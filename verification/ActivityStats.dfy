/** The activity metrics of stats_service.py: grouped counts over an arbitrary event log. */
module ActivityStats {
  import opened Options

  const REPORT_VIEW := "report_view"
  const EXPORT_DOWNLOAD := "export_download"
  const LOGIN := "login"
  const ENGAGED_DURATION_SECONDS := 30
  const REPEAT_SESSION_COUNT := 2

  datatype Event = Event(
    action: string, result: string, actor: Option<int>, resource: Option<string>, company: Option<int>,
    duration: Option<int>, at: int)

  /** Which events a query may see: a period, and a company, a set of report ids as text, or everything. */
  datatype Query = Query(start: int, end: int, company: Option<int>, resources: Option<set<string>>, logins: bool)

  // ---------------------------------------------------------------- filters

  predicate InPeriod(e: Event, q: Query) {
    q.start <= e.at <= q.end
  }

  /** The company filter if there is one, else the report filter if there is one. */
  predicate InCatalog(e: Event, q: Query) {
    if q.company.Some? then e.company == q.company
    else if q.resources.Some? then e.resource.Some? && e.resource.value in q.resources.value
    else true
  }

  /** `_activity_scope_condition` */
  predicate InActivityScope(e: Event, q: Query) {
    ((e.action == REPORT_VIEW || e.action == EXPORT_DOWNLOAD) && InCatalog(e, q)) ||
    (q.logins && e.action == LOGIN && e.result == "success")
  }

  /** The WHERE clause of the main aggregate. */
  predicate Counted(e: Event, q: Query) {
    e.result == "success" && InPeriod(e, q) && InActivityScope(e, q)
  }

  predicate IsView(e: Event, q: Query) {
    Counted(e, q) && e.action == REPORT_VIEW
  }

  predicate IsEngaged(e: Event, q: Query) {
    IsView(e, q) && (match e.duration case Some(d) => d case None => 0) >= ENGAGED_DURATION_SECONDS
  }

  /** The WHERE clause of the repeat-viewer query, which is written out separately. */
  predicate IsSession(e: Event, q: Query) {
    e.action == REPORT_VIEW && e.result == "success" && e.actor.Some? && InPeriod(e, q) && InCatalog(e, q)
  }

  /** In the period and in the scope: the company chosen, else the reports chosen, else everything. */
  predicate Selected(e: Event, q: Query) {
    && q.start <= e.at && e.at <= q.end
    && match (q.company, q.resources)
       case (Some(company), _) => e.company == Some(company)
       case (None, Some(texts)) => exists text :: text in texts && e.resource == Some(text)
       case (None, None) => true
  }

  /** What the two queries count, told by the texts and limits of the log itself. */
  lemma EventFilters(e: Event, q: Query)
    ensures IsView(e, q) <==> e.action == "report_view" && e.result == "success" && Selected(e, q)
    ensures IsSession(e, q) <==> IsView(e, q) && e.actor != None
    ensures IsEngaged(e, q) <==> IsView(e, q) && exists seconds :: e.duration == Some(seconds) && seconds >= 30
    ensures Counted(e, q) <==>
              e.result == "success" && ((e.action in {"report_view", "export_download"} && Selected(e, q))
                                        || (e.action == "login" && q.logins && q.start <= e.at && e.at <= q.end))
    ensures InPerformance(e, q) <==>
              e.action in {"report_view", "export_download"} && e.result == "success" && Selected(e, q)
  {}

  // ---------------------------------------------------------------- aggregates

  /** `count(*) FILTER (WHERE p)` */
  function Count(log: seq<Event>, p: Event -> bool): nat {
    if log == [] then 0
    else Count(log[..|log| - 1], p) + if p(log[|log| - 1]) then 1 else 0
  }

  /** `count(DISTINCT actor_user_id) FILTER (WHERE p)`, as the set counted; NULL does not count. */
  function Actors(log: seq<Event>, p: Event -> bool): set<int> {
    set e | e in log && p(e) && e.actor.Some? :: e.actor.value
  }

  /** The size of one actor's group. */
  function CountOf(log: seq<Event>, p: Event -> bool, actor: int): nat {
    Count(log, (e: Event) => p(e) && e.actor == Some(actor))
  }

  /** The groups of `GROUP BY actor_user_id HAVING count(*) >= 2` over the rows satisfying p. */
  function Repeaters(log: seq<Event>, p: Event -> bool): set<int> {
    set a | a in Actors(log, p) && CountOf(log, p, a) >= REPEAT_SESSION_COUNT
  }

  datatype Metrics = Metrics(views: nat, uniqueViewers: nat, engagedViews: nat, repeatViewers: nat)

  /** `_period_activity_metrics`, the four figures the rates are made of. */
  function PeriodMetrics(log: seq<Event>, q: Query): Metrics {
    Metrics(
      Count(log, (e: Event) => IsView(e, q)),
      |Actors(log, (e: Event) => IsView(e, q))|,
      Count(log, (e: Event) => IsEngaged(e, q)),
      |Repeaters(log, (e: Event) => IsSession(e, q))|)
  }

  /** The columns of the main aggregate of `get_report_performance`, grouped by resource text. */
  datatype Figures = Figures(views: nat, uniqueViewers: nat, engagedViews: nat)

  function GroupFigures(log: seq<Event>, q: Query, resource: Option<string>): Figures {
    Figures(
      Count(log, (e: Event) => IsView(e, q) && e.resource == resource),
      |Actors(log, (e: Event) => IsView(e, q) && e.resource == resource)|,
      Count(log, (e: Event) => IsEngaged(e, q) && e.resource == resource))
  }

  function GroupRepeaters(log: seq<Event>, q: Query, resource: Option<string>): set<int> {
    Repeaters(log, (e: Event) => IsSession(e, q) && e.resource == resource)
  }

  /** The four figures among the events of one resource text. */
  function ReportMetrics(log: seq<Event>, q: Query, resource: Option<string>): Metrics {
    var f := GroupFigures(log, q, resource);
    Metrics(f.views, f.uniqueViewers, f.engagedViews, |GroupRepeaters(log, q, resource)|)
  }

  // ---------------------------------------------------------------- laws

  lemma {:induction false} CountMonotone(log: seq<Event>, p: Event -> bool, q: Event -> bool)
    requires forall e :: p(e) ==> q(e)
    ensures Count(log, p) <= Count(log, q)
    decreases |log|
  {
    if log != [] {
      CountMonotone(log[..|log| - 1], p, q);
    }
  }

  lemma {:induction false} ActorsAreCounted(log: seq<Event>, p: Event -> bool, a: int)
    ensures a in Actors(log, p) <==> CountOf(log, p, a) > 0
    decreases |log|
  {
    if log != [] {
      var front, last := log[..|log| - 1], log[|log| - 1];
      assert log == front + [last];
      ActorsAreCounted(front, p, a);
      assert forall e :: e in log <==> e in front || e == last;
    }
  }

  /** What one more event does to the two sets. */
  lemma OneMoreEvent(front: seq<Event>, last: Event, p: Event -> bool)
    ensures !p(last) || last.actor.None? ==>
              Actors(front + [last], p) == Actors(front, p) && Repeaters(front + [last], p) == Repeaters(front, p)
    ensures p(last) && last.actor.Some? ==>
              Actors(front + [last], p) == Actors(front, p) + {last.actor.value} &&
              Repeaters(front + [last], p)
              == Repeaters(front, p) + if last.actor.value in Actors(front, p) then {last.actor.value} else {}
  {
    var log := front + [last];
    assert log[..|log| - 1] == front;
    assert forall e :: e in log <==> e in front || e == last;
    forall a
      ensures CountOf(log, p, a)
              == CountOf(front, p, a) + if p(last) && last.actor == Some(a) then 1 else 0
      ensures a in Actors(front, p) <==> CountOf(front, p, a) > 0
    {
      ActorsAreCounted(front, p, a);
    }
  }

  /** Every distinct actor accounts for one row, and every repeated one for a second. */
  lemma {:induction false} ActorsAndRepeatersFit(log: seq<Event>, p: Event -> bool)
    ensures |Actors(log, p)| + |Repeaters(log, p)| <= Count(log, p) && Repeaters(log, p) <= Actors(log, p)
    decreases |log|
  {
    if log == [] {
      assert Actors(log, p) == {} && Repeaters(log, p) == {};
    } else {
      var front, last := log[..|log| - 1], log[|log| - 1];
      assert log == front + [last];
      ActorsAndRepeatersFit(front, p);
      OneMoreEvent(front, last, p);
    }
  }

  lemma {:induction false} CountSame(log: seq<Event>, p: Event -> bool, q: Event -> bool)
    requires forall e :: e in log ==> p(e) == q(e)
    ensures Count(log, p) == Count(log, q)
    decreases |log|
  {
    if log != [] {
      CountSame(log[..|log| - 1], p, q);
    }
  }

  /** Whether rows without an actor are filtered out beforehand makes no difference to the repeat viewers. */
  lemma SessionsGroupLikeViews(log: seq<Event>, view: Event -> bool, session: Event -> bool)
    requires forall e :: session(e) <==> view(e) && e.actor.Some?
    ensures Repeaters(log, session) == Repeaters(log, view) && Actors(log, session) == Actors(log, view)
  {
    forall a ensures CountOf(log, session, a) == CountOf(log, view, a) {
      CountSame(log, (e: Event) => session(e) && e.actor == Some(a), (e: Event) => view(e) && e.actor == Some(a));
    }
    assert Actors(log, session) == Actors(log, view);
  }

  lemma SubsetSize(a: set<int>, b: set<int>)
    requires a <= b
    ensures |a| <= |b|
  {
    assert b == a + (b - a);
  }

  ghost predicate Consistent(m: Metrics) {
    m.uniqueViewers + m.repeatViewers <= m.views && m.engagedViews <= m.views && m.repeatViewers <= m.uniqueViewers
  }

  /** For every log, period and scope the figures fit together, although two separate queries produce them. */
  lemma PeriodMetricsConsistent(log: seq<Event>, q: Query)
    ensures Consistent(PeriodMetrics(log, q))
  {
    var view, session := (e: Event) => IsView(e, q), (e: Event) => IsSession(e, q);
    SessionsGroupLikeViews(log, view, session);
    ActorsAndRepeatersFit(log, view);
    SubsetSize(Repeaters(log, view), Actors(log, view));
    CountMonotone(log, (e: Event) => IsEngaged(e, q), view);
  }

  /** The same for every resource text. */
  lemma ReportMetricsConsistent(log: seq<Event>, q: Query, resource: Option<string>)
    ensures Consistent(ReportMetrics(log, q, resource))
  {
    var view := (e: Event) => IsView(e, q) && e.resource == resource;
    var session := (e: Event) => IsSession(e, q) && e.resource == resource;
    SessionsGroupLikeViews(log, view, session);
    ActorsAndRepeatersFit(log, view);
    SubsetSize(Repeaters(log, view), Actors(log, view));
    CountMonotone(log, (e: Event) => IsEngaged(e, q) && e.resource == resource, view);
  }

  /** A percentage as the exact rational it is rounded from. */
  function Rate(part: nat, whole: nat): real {
    if whole == 0 then 0.0 else (100 * part) as real / whole as real
  }

  lemma RateInRange(part: nat, whole: nat)
    requires part <= whole
    ensures 0.0 <= Rate(part, whole) <= 100.0
    ensures whole > 0 ==> Rate(part, whole) * whole as real == 100.0 * part as real
  {}

  /** The engaged rate and the repeat rate are percentages, for every log, period and scope. */
  lemma RatesAreInRange(log: seq<Event>, q: Query)
    ensures var m := PeriodMetrics(log, q);
            0.0 <= Rate(m.engagedViews, m.views) <= 100.0 && 0.0 <= Rate(m.repeatViewers, m.uniqueViewers) <= 100.0
  {
    PeriodMetricsConsistent(log, q);
    var m := PeriodMetrics(log, q);
    RateInRange(m.engagedViews, m.views);
    RateInRange(m.repeatViewers, m.uniqueViewers);
  }

  /** Who comes back to one report comes back; the converse fails for a reader of two reports. */
  lemma ReportRepeatersAreRepeaters(log: seq<Event>, q: Query, resource: Option<string>)
    ensures GroupRepeaters(log, q, resource) <= Repeaters(log, (e: Event) => IsSession(e, q))
    ensures ReportMetrics(log, q, resource).repeatViewers <= PeriodMetrics(log, q).repeatViewers
  {
    var all := (e: Event) => IsSession(e, q);
    var one := (e: Event) => IsSession(e, q) && e.resource == resource;
    forall a | a in Repeaters(log, one) ensures a in Repeaters(log, all) {
      CountMonotone(log, (e: Event) => one(e) && e.actor == Some(a), (e: Event) => all(e) && e.actor == Some(a));
      ActorsAreCounted(log, all, a);
    }
    SubsetSize(Repeaters(log, one), Repeaters(log, all));
  }

  // ---------------------------------------------------------------- the rows of get_report_performance

  /** The host's `int()`, where it does not raise. */
  type Parse = string -> Option<int>

  /** The WHERE clause of the main aggregate of `get_report_performance`, which has no logins. */
  predicate InPerformance(e: Event, q: Query) {
    Counted(e, q) && (e.action == REPORT_VIEW || e.action == EXPORT_DOWNLOAD)
  }

  predicate HasActivity(log: seq<Event>, q: Query, resource: Option<string>) {
    exists e :: e in log && InPerformance(e, q) && e.resource == resource
  }

  /** A query result: the resource text of each group, and its column values. */
  type Rows<T> = seq<(Option<string>, T)>

  ghost predicate HasRow<T>(rows: Rows<T>, resource: Option<string>) {
    exists k :: 0 <= k < |rows| && rows[k].0 == resource
  }

  /** `GROUP BY resource_id` over the main aggregate; the order of the rows is up to the database. */
  ghost predicate IsMainResult(log: seq<Event>, q: Query, rows: Rows<Figures>) {
    && (forall resource :: HasRow(rows, resource) <==> HasActivity(log, q, resource))
    && (forall k :: 0 <= k < |rows| ==> rows[k].1 == GroupFigures(log, q, rows[k].0))
  }

  /** The repeat-viewer query: only resources with a repeat viewer have a row. */
  ghost predicate IsRepeatResult(log: seq<Event>, q: Query, rows: Rows<nat>) {
    && (forall resource :: HasRow(rows, resource) <==> GroupRepeaters(log, q, resource) != {})
    && (forall k :: 0 <= k < |rows| ==> rows[k].1 == |GroupRepeaters(log, q, rows[k].0)|)
  }

  predicate Names(resource: Option<string>, parse: Parse, id: int) {
    resource.Some? && parse(resource.value) == Some(id)
  }

  /** Where the last row of a report stands. */
  function LastRow<T>(rows: Rows<T>, parse: Parse, id: int): (last: Option<nat>)
    ensures last.Some? ==> last.value < |rows| && Names(rows[last.value].0, parse, id)
    ensures forall j :: (if last.Some? then last.value else -1) < j < |rows| ==> !Names(rows[j].0, parse, id)
  {
    if rows == [] then None
    else
      var n := |rows| - 1;
      if Names(rows[n].0, parse, id) then Some(n) else LastRow(rows[..n], parse, id)
  }

  /** The loop that keys query rows by report id: other texts are skipped, a later row overwrites an earlier one. */
  method IndexByReport<T>(rows: Rows<T>, parse: Parse) returns (index: map<int, T>)
    ensures forall id :: id in index <==> LastRow(rows, parse, id).Some?
    ensures forall id :: id in index ==> index[id] == rows[LastRow(rows, parse, id).value].1
  {
    index := map[];
    for n := 0 to |rows|
      invariant forall id :: id in index <==> LastRow(rows[..n], parse, id).Some?
      invariant forall id :: id in index ==> index[id] == rows[LastRow(rows[..n], parse, id).value].1
    {
      var key := rows[n].0;
      assert rows[..n + 1][..n] == rows[..n];
      if key.Some? && parse(key.value).Some? {
        index := index[parse(key.value).value := rows[n].1];
      }
    }
    assert rows[..|rows|] == rows;
  }

  /** The figures of one report as `get_report_performance` puts them together. */
  function Shown(main: Rows<Figures>, repeat: Rows<nat>, parse: Parse, id: int): Metrics {
    var k, r := LastRow(main, parse, id), LastRow(repeat, parse, id);
    var f := if k.Some? then main[k.value].1 else Figures(0, 0, 0);
    Metrics(f.views, f.uniqueViewers, f.engagedViews, if r.Some? then repeat[r.value].1 else 0)
  }

  /** `get_report_performance` for the reports listed, from the results of its two queries. */
  method ReportPerformance(main: Rows<Figures>, repeat: Rows<nat>, parse: Parse, reports: set<int>)
    returns (table: map<int, Metrics>)
    ensures table.Keys == reports && forall id :: id in reports ==> table[id] == Shown(main, repeat, parse, id)
  {
    var current := IndexByReport(main, parse);
    var repeating := IndexByReport(repeat, parse);
    table := map id | id in reports ::
      var f := if id in current then current[id] else Figures(0, 0, 0);
      Metrics(f.views, f.uniqueViewers, f.engagedViews, if id in repeating then repeating[id] else 0);
  }

  /** The activity of the report is all logged under one text. */
  ghost predicate OneText(log: seq<Event>, q: Query, parse: Parse, id: int) {
    forall a, b :: HasActivity(log, q, a) && HasActivity(log, q, b) && Names(a, parse, id) && Names(b, parse, id)
      ==> a == b
  }

  lemma RepeatersAreActive(log: seq<Event>, q: Query, resource: Option<string>)
    requires GroupRepeaters(log, q, resource) != {}
    ensures HasActivity(log, q, resource)
  {}

  /** Such a report shows that text's figures, whatever the order of the rows. */
  lemma RowShowsItsText(log: seq<Event>, q: Query, main: Rows<Figures>,
      repeat: Rows<nat>, parse: Parse, id: int, resource: Option<string>)
    requires IsMainResult(log, q, main) && IsRepeatResult(log, q, repeat) && OneText(log, q, parse, id)
    requires Names(resource, parse, id) && HasActivity(log, q, resource)
    ensures Shown(main, repeat, parse, id) == ReportMetrics(log, q, resource)
  {
    hide HasActivity, GroupFigures, GroupRepeaters, LastRow;
    assert HasRow(main, resource);
    var j :| 0 <= j < |main| && main[j].0 == resource;
    var k, r := LastRow(main, parse, id), LastRow(repeat, parse, id);
    assert k.Some?;
    assert HasRow(main, main[k.value].0);
    if r.Some? {
      assert HasRow(repeat, repeat[r.value].0);
      RepeatersAreActive(log, q, repeat[r.value].0);
    } else {
      assert !HasRow(repeat, resource);
    }
  }

  /** A report without activity has no rows. */
  lemma NoRowWithoutActivity(log: seq<Event>, q: Query, main: Rows<Figures>, repeat: Rows<nat>, parse: Parse, id: int)
    requires IsMainResult(log, q, main) && IsRepeatResult(log, q, repeat)
    requires forall resource :: Names(resource, parse, id) ==> !HasActivity(log, q, resource)
    ensures Shown(main, repeat, parse, id) == Metrics(0, 0, 0, 0)
  {
    hide HasActivity, GroupFigures, GroupRepeaters, LastRow;
    var k, r := LastRow(main, parse, id), LastRow(repeat, parse, id);
    assert k.Some? ==> HasRow(main, main[k.value].0);
    if r.Some? { RepeatersAreActive(log, q, repeat[r.value].0); }
  }

  /** The figures shown for a report fit together, in whatever order the rows come, if its id has one text. */
  lemma ReportRowsConsistent(log: seq<Event>, q: Query, main: Rows<Figures>, repeat: Rows<nat>, parse: Parse, id: int)
    requires IsMainResult(log, q, main) && IsRepeatResult(log, q, repeat) && OneText(log, q, parse, id)
    ensures Consistent(Shown(main, repeat, parse, id))
  {
    hide HasActivity, LastRow, Shown, ReportMetrics, IsMainResult, IsRepeatResult, OneText;
    if resource :| Names(resource, parse, id) && HasActivity(log, q, resource) {
      RowShowsItsText(log, q, main, repeat, parse, id, resource);
      ReportMetricsConsistent(log, q, resource);
    } else {
      NoRowWithoutActivity(log, q, main, repeat, parse, id);
    }
  }

  lemma {:induction false} CountIsZeroIff(log: seq<Event>, p: Event -> bool)
    ensures Count(log, p) == 0 <==> forall e :: e in log ==> !p(e)
    decreases |log|
  {
    if log != [] {
      var front, last := log[..|log| - 1], log[|log| - 1];
      assert log == front + [last];
      CountIsZeroIff(front, p);
      assert last in log && forall e :: e in log <==> e in front || e == last;
    }
  }

  /** Views and downloads are logged under `str(id)`; other actions may carry any text. */
  ghost predicate ActivityIsWritten(log: seq<Event>, str: int -> string) {
    forall e :: e in log && (e.action == REPORT_VIEW || e.action == EXPORT_DOWNLOAD) && e.resource.Some? ==>
      exists n :: e.resource.value == str(n)
  }

  /** Such writers give every report one text, whatever else is in the log. */
  lemma WrittenIdsHaveOneText(log: seq<Event>, q: Query, parse: Parse, str: int -> string, id: int)
    requires (forall n :: parse(str(n)) == Some(n)) && ActivityIsWritten(log, str)
    ensures OneText(log, q, parse, id)
  {}

  /** On a log so written the row of every report holds the report's own figures, and they fit together. */
  lemma WrittenReportsConsistent(log: seq<Event>, q: Query, main: Rows<Figures>,
      repeat: Rows<nat>, parse: Parse, str: int -> string, id: int)
    requires IsMainResult(log, q, main) && IsRepeatResult(log, q, repeat)
    requires (forall n :: parse(str(n)) == Some(n)) && ActivityIsWritten(log, str)
    ensures Shown(main, repeat, parse, id) == ReportMetrics(log, q, Some(str(id)))
    ensures Consistent(Shown(main, repeat, parse, id))
  {
    hide HasActivity, LastRow, Shown, ReportMetrics, IsMainResult, IsRepeatResult, OneText, ActivityIsWritten;
    WrittenIdsHaveOneText(log, q, parse, str, id);
    ReportRowsConsistent(log, q, main, repeat, parse, id);
    var own := Some(str(id));
    if HasActivity(log, q, own) {
      RowShowsItsText(log, q, main, repeat, parse, id, own);
    } else {
      forall resource | Names(resource, parse, id) ensures !HasActivity(log, q, resource) {
        if HasActivity(log, q, resource) { WrittenActivity(log, q, parse, str, id, resource); }
      }
      NoRowWithoutActivity(log, q, main, repeat, parse, id);
      InactiveIsZero(log, q, own);
    }
  }

  lemma WrittenActivity(log: seq<Event>, q: Query, parse: Parse, str: int -> string, id: int, resource: Option<string>)
    requires (forall n :: parse(str(n)) == Some(n)) && ActivityIsWritten(log, str)
    requires Names(resource, parse, id) && HasActivity(log, q, resource)
    ensures resource == Some(str(id))
  {}

  lemma InactiveIsZero(log: seq<Event>, q: Query, resource: Option<string>)
    requires !HasActivity(log, q, resource)
    ensures ReportMetrics(log, q, resource) == Metrics(0, 0, 0, 0)
  {
    var view, engaged := (e: Event) => IsView(e, q) && e.resource == resource,
      (e: Event) => IsEngaged(e, q) && e.resource == resource;
    CountIsZeroIff(log, view);
    CountIsZeroIff(log, engaged);
    assert Actors(log, view) == {};
    if GroupRepeaters(log, q, resource) != {} { RepeatersAreActive(log, q, resource); }
  }

  /** The engaged rate of every row is a percentage, even where an id has several texts: one row gives both figures. */
  lemma ReportRatesAreInRange(log: seq<Event>, q: Query, main: Rows<Figures>, repeat: Rows<nat>, parse: Parse, id: int)
    requires IsMainResult(log, q, main)
    ensures var m := Shown(main, repeat, parse, id); 0.0 <= Rate(m.engagedViews, m.views) <= 100.0
  {
    hide LastRow, Consistent;
    var k, m := LastRow(main, parse, id), Shown(main, repeat, parse, id);
    if k.Some? {
      var resource := main[k.value].0;
      CountMonotone(log, (e: Event) => IsEngaged(e, q) && e.resource == resource,
                    (e: Event) => IsView(e, q) && e.resource == resource);
    }
    RateInRange(m.engagedViews, m.views);
  }

  lemma {:induction false} CountSplits(log: seq<Event>, p: Event -> bool, part: Event -> bool)
    ensures Count(log, p) == Count(log, (e: Event) => p(e) && part(e)) + Count(log, (e: Event) => p(e) && !part(e))
    decreases |log|
  {
    if log != [] { CountSplits(log[..|log| - 1], p, part); }
  }

  /** A row that has survived the overwriting shows all views of its report exactly when no other text has any. */
  lemma ViewsCompleteIff(log: seq<Event>, q: Query, main: Rows<Figures>, parse: Parse, id: int)
    requires IsMainResult(log, q, main) && LastRow(main, parse, id).Some?
    ensures var last := main[LastRow(main, parse, id).value];
            last.1.views == Count(log, (e: Event) => IsView(e, q) && Names(e.resource, parse, id)) <==>
            forall e :: e in log && IsView(e, q) && Names(e.resource, parse, id) ==> e.resource == last.0
  {
    hide IsView, LastRow, Count;
    var last := main[LastRow(main, parse, id).value];
    var view, here := (e: Event) => IsView(e, q) && Names(e.resource, parse, id), (e: Event) => e.resource == last.0;
    CountSplits(log, view, here);
    CountSame(log, (e: Event) => view(e) && here(e), (e: Event) => IsView(e, q) && e.resource == last.0);
    CountIsZeroIff(log, (e: Event) => view(e) && !here(e));
  }

  function ViewOf(q: Query, actor: int, text: string): Event {
    Event(REPORT_VIEW, "success", Some(actor), Some(text), None, None, q.start)
  }

  /** The figures of one text when `n` views by one actor are the whole of its activity. */
  lemma FiguresOfOneReader(log: seq<Event>, q: Query, actor: int, text: string, n: nat)
    requires q.start <= q.end && q.company.None? && q.resources.None? && n > 0
    requires forall e :: e in log ==> e == ViewOf(q, actor, text) || e.resource != Some(text)
    requires Count(log, (e: Event) => e == ViewOf(q, actor, text)) == n
    ensures HasActivity(log, q, Some(text)) && GroupFigures(log, q, Some(text)) == Figures(n, 1, 0)
    ensures GroupRepeaters(log, q, Some(text)) == if n >= REPEAT_SESSION_COUNT then {actor} else {}
  {
    var it := ViewOf(q, actor, text);
    var view, same := (e: Event) => IsView(e, q) && e.resource == Some(text), (e: Event) => e == it;
    var engaged, session := (e: Event) => IsEngaged(e, q) && e.resource == Some(text),
      (e: Event) => IsSession(e, q) && e.resource == Some(text);
    CountIsZeroIff(log, same);
    assert it in log;
    CountSame(log, view, same);
    CountIsZeroIff(log, engaged);
    assert Actors(log, view) == {actor} == Actors(log, session);
    CountSame(log, (e: Event) => session(e) && e.actor == Some(actor), same);
  }

  /** It can go wrong: a report seen twice by one reader under "7", and once by another under "07". */
  lemma TwoTextsMislead(q: Query, parse: Parse)
    requires q.start <= q.end && q.company.None? && q.resources.None?
    requires parse("7") == parse("07") == Some(7)
    ensures var log := [ViewOf(q, 1, "7"), ViewOf(q, 1, "7"), ViewOf(q, 2, "07")];
            var main: Rows<Figures> := [(Some("7"), Figures(2, 1, 0)), (Some("07"), Figures(1, 1, 0))];
            var repeat: Rows<nat> := [(Some("7"), 1)];
            IsMainResult(log, q, main) && IsRepeatResult(log, q, repeat)
            && Shown(main, repeat, parse, 7) == Metrics(1, 1, 0, 1) && !Consistent(Shown(main, repeat, parse, 7))
  {
    hide GroupFigures, GroupRepeaters, Count;
    var a, b := ViewOf(q, 1, "7"), ViewOf(q, 2, "07");
    var log := [a, a, b];
    assert |"7"| != |"07"|;
    FiguresOfOneReader(log, q, 1, "7", 2) by { CountThree(a, a, b, a); }
    FiguresOfOneReader(log, q, 2, "07", 1) by { CountThree(a, a, b, b); }
    var main: Rows<Figures> := [(Some("7"), Figures(2, 1, 0)), (Some("07"), Figures(1, 1, 0))];
    var repeat: Rows<nat> := [(Some("7"), 1)];
    forall resource ensures HasRow(main, resource) <==> HasActivity(log, q, resource) {
      assert main[0].0 == Some("7") && main[1].0 == Some("07");
    }
    forall resource ensures HasRow(repeat, resource) <==> GroupRepeaters(log, q, resource) != {} {
      assert repeat[0].0 == Some("7");
      if GroupRepeaters(log, q, resource) != {} { RepeatersAreActive(log, q, resource); }
    }
  }

  lemma CountThree(a: Event, b: Event, c: Event, e: Event)
    ensures Count([a, b, c], (x: Event) => x == e)
            == (if a == e then 1 else 0) + (if b == e then 1 else 0) + if c == e then 1 else 0
  {
    var p := (x: Event) => x == e;
    assert [a, b, c][..2] == [a, b] && [a, b][..1] == [a] && [a][..0] == [];
    assert Count([a], p) == if p(a) then 1 else 0;
    assert Count([a, b], p) == Count([a], p) + if p(b) then 1 else 0;
  }

  /** Events of other kinds may carry any text: a log with a group change in it is still so written. */
  lemma WrittenExample(q: Query, str: int -> string)
    ensures ActivityIsWritten([ViewOf(q, 1, str(7)),
                               Event("group_change", "success", Some(1), Some("group:x"), None, None, q.start)], str)
  {}

  /** A day's log: a long view, a short one by the same reader, one by another, one too late, and a failed one. */
  lemma SmallLog()
    ensures var view := (actor: int, seconds: Option<int>, at: int) =>
              Event("report_view", "success", Some(actor), Some("7"), Some(3), seconds, at);
            var log := [view(1, Some(30), 10), view(1, Some(29), 20), view(2, None, 20), view(2, Some(90), 21),
                        view(3, Some(90), 15).(result := "denied")];
            PeriodMetrics(log, Query(10, 20, Some(3), None, false)) == Metrics(3, 2, 1, 1)
  {
    hide IsView, IsEngaged, IsSession, Count;
    var q := Query(10, 20, Some(3), None, false);
    var view := (actor: int, seconds: Option<int>, at: int) =>
      Event("report_view", "success", Some(actor), Some("7"), Some(3), seconds, at);
    var a, b, c, d := view(1, Some(30), 10), view(1, Some(29), 20), view(2, None, 20), view(2, Some(90), 21);
    var e := view(3, Some(90), 15).(result := "denied");
    EventFilters(a, q);
    EventFilters(b, q);
    EventFilters(c, q);
    EventFilters(d, q);
    EventFilters(e, q);
    var log := [a, b, c, d, e];
    var isView, isSession := (x: Event) => IsView(x, q), (x: Event) => IsSession(x, q);
    CountFive(a, b, c, d, e, isView);
    CountFive(a, b, c, d, e, (x: Event) => IsEngaged(x, q));
    CountFive(a, b, c, d, e, (x: Event) => isSession(x) && x.actor == Some(1));
    CountFive(a, b, c, d, e, (x: Event) => isSession(x) && x.actor == Some(2));
    assert Actors(log, isView) == {1, 2} == Actors(log, isSession) by { assert a in log && c in log; }
    assert Repeaters(log, isSession) == {1};
  }

  lemma CountFive(a: Event, b: Event, c: Event, d: Event, e: Event, p: Event -> bool)
    ensures Count([a, b, c, d, e], p)
            == (if p(a) then 1 else 0) + (if p(b) then 1 else 0) + (if p(c) then 1 else 0) + (if p(d) then 1 else 0)
               + if p(e) then 1 else 0
  {
    assert [a, b, c, d, e][..4] == [a, b, c, d] && [a, b, c, d][..3] == [a, b, c] && [a, b, c][..2] == [a, b];
    assert [a, b][..1] == [a] && [a][..0] == [];
    assert Count([a], p) == if p(a) then 1 else 0;
    assert Count([a, b], p) == Count([a], p) + if p(b) then 1 else 0;
    assert Count([a, b, c], p) == Count([a, b], p) + if p(c) then 1 else 0;
    assert Count([a, b, c, d], p) == Count([a, b, c], p) + if p(d) then 1 else 0;
  }
}
