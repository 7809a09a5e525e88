/** What the audit-ledger migration promises: one creation per report, and a downgrade that undoes the upgrade. */
module LedgerLaws {
  import opened FolderForest
  import opened FolderIndex
  import opened LedgerMigration
  import opened Options

  // ---------------------------------------------------------------- ids as text

  function Value(digits: string): nat {
    if digits == "" then 0
    else
      var n, c := |digits| - 1, digits[|digits| - 1];
      10 * Value(digits[..n]) + if '0' <= c <= '9' then c as int - '0' as int else 0
  }

  lemma {:induction false} DigitsValue(n: nat)
    ensures Value(Digits(n)) == n && Digits(n) != "" && forall c :: c in Digits(n) ==> c != '-'
    decreases n
  {
    var last := "0123456789"[n % 10];
    assert '0' <= last <= '9' && last as int - '0' as int == n % 10;
    var front := if n < 10 then "" else Digits(n / 10);
    assert Digits(n) == front + [last] && (front + [last])[..|front|] == front;
    if n >= 10 { DigitsValue(n / 10); }
  }

  lemma IdTextInjective(m: int, n: int)
    ensures IdText(m) == IdText(n) <==> m == n
  {
    DigitsValue(if m < 0 then -m else m);
    DigitsValue(if n < 0 then -n else n);
    if IdText(m) == IdText(n) {
      if m < 0 { assert IdText(m)[0] == '-' && IdText(m)[1..] == Digits(-m); }
      if n < 0 { assert IdText(n)[0] == '-' && IdText(n)[1..] == Digits(-n); }
      if m >= 0 { assert Digits(m)[0] in Digits(m); }
      if n >= 0 { assert Digits(n)[0] in Digits(n); }
    }
  }

  // ---------------------------------------------------------------- the upgraded rows, one by one

  /** A row before duplicates are told apart. */
  function Normalized(a: AuditRow, admins: Admins): AuditRow {
    NormalizePbix(DetachActor(WithoutKey(a), admins))
  }

  function NormalizedRows(audit: seq<AuditRow>, admins: Admins): seq<AuditRow> {
    Update(audit, (a: AuditRow) => Normalized(a, admins))
  }

  function UpgradedRow(a: AuditRow, duplicate: bool, reports: seq<ReportRow>): AuditRow {
    GiveKey(Demote(a, duplicate), reports)
  }

  lemma UpgradedRowsAt(audit: seq<AuditRow>, reports: seq<ReportRow>, admins: Admins)
    ensures var rows, normal := UpgradedRows(audit, reports, admins), NormalizedRows(audit, admins);
            |rows| == |normal| == |audit| &&
            forall k :: 0 <= k < |audit| ==>
              rows[k] == UpgradedRow(normal[k], IsDuplicate(normal[k], normal, reports), reports)
  {
    hide DetachActor, NormalizePbix, IsDuplicate, Demote, GiveKey, WithoutKey;
    var added := Update(audit, WithoutKey);
    var detached := Update(added, (a: AuditRow) => DetachActor(a, admins));
    assert Update(detached, NormalizePbix) == NormalizedRows(audit, admins);
  }

  // ---------------------------------------------------------------- exactly one creation per report

  ghost predicate UniqueIds(t: Tables) {
    && (forall i, j :: 0 <= i < j < |t.audit| ==> t.audit[i].id != t.audit[j].id)
    && (forall i, j :: 0 <= i < j < |t.reports| ==> t.reports[i].id != t.reports[j].id)
  }

  lemma ColumnsKept(a: AuditRow, admins: Admins)
    ensures var n := Normalized(a, admins);
            n.id == a.id && n.occurredAt == a.occurredAt && n.resourceType == a.resourceType
            && n.resourceId == a.resourceId && n.eventKey == None
  {}

  /** After duplicates are demoted, two rows never both create the same report. */
  lemma AtMostOne(audit: seq<AuditRow>, reports: seq<ReportRow>, admins: Admins, i: nat, j: nat, resource: string)
    requires forall i, j :: 0 <= i < j < |audit| ==> audit[i].id != audit[j].id
    requires i < |audit| && j < |audit|
    requires exists r :: r in reports && IdText(r.id) == resource
    requires CreatesResource(UpgradedRows(audit, reports, admins)[i], resource)
    requires CreatesResource(UpgradedRows(audit, reports, admins)[j], resource)
    ensures i == j
  {
    hide IdText, Normalized;
    UpgradedRowsAt(audit, reports, admins);
    var normal := NormalizedRows(audit, admins);
    ColumnsKept(audit[i], admins);
    ColumnsKept(audit[j], admins);
    var a, b := normal[i], normal[j];
    assert a in normal && b in normal;
    assert CreatesResource(a, resource) && CreatesResource(b, resource);
    assert CreatesReport(a, reports) && CreatesReport(b, reports);
    assert !IsDuplicate(a, normal, reports) && !IsDuplicate(b, normal, reports);
    assert i == j || Earlier(a, b) || Earlier(b, a);
  }

  /** Every inserted row stands for some report that needed it. */
  lemma {:induction false} BackfillFrom(audit: seq<AuditRow>, reports: seq<ReportRow>, nextId: int, k: nat)
    returns (i: nat)
    requires k < |Backfill(audit, reports, nextId)|
    ensures i < |reports| && NeedsSynthetic(reports[i], audit)
    ensures Backfill(audit, reports, nextId)[k] == Synthetic(reports[i], nextId + k)
    decreases |reports|
  {
    hide NeedsSynthetic, Synthetic;
    var n := |reports| - 1;
    if k < |Backfill(audit, reports[..n], nextId)| {
      i := BackfillFrom(audit, reports[..n], nextId, k);
    } else {
      i := n;
    }
  }

  /** A report is backfilled once if it needs to be. */
  lemma {:induction false} BackfillHas(audit: seq<AuditRow>, reports: seq<ReportRow>, nextId: int, i: nat)
    returns (k: nat)
    requires i < |reports| && NeedsSynthetic(reports[i], audit)
    ensures k < |Backfill(audit, reports, nextId)|
    ensures Backfill(audit, reports, nextId)[k] == Synthetic(reports[i], nextId + k)
    decreases |reports|
  {
    hide NeedsSynthetic, Synthetic;
    var n := |reports| - 1;
    if i == n {
      k := |Backfill(audit, reports[..n], nextId)|;
    } else {
      assert reports[..n][i] == reports[i];
      k := BackfillHas(audit, reports[..n], nextId, i);
    }
  }

  /** No two inserted rows create the same report. */
  lemma {:induction false} BackfillOnce(audit: seq<AuditRow>,
      reports: seq<ReportRow>, nextId: int, resource: string, j: nat, k: nat)
    requires forall i, j :: 0 <= i < j < |reports| ==> reports[i].id != reports[j].id
    requires j < k < |Backfill(audit, reports, nextId)|
    requires CreatesResource(Backfill(audit, reports, nextId)[k], resource)
    ensures !CreatesResource(Backfill(audit, reports, nextId)[j], resource)
    decreases |reports|
  {
    hide NeedsSynthetic, IdText;
    var n := |reports| - 1;
    if k < |Backfill(audit, reports[..n], nextId)| {
      BackfillOnce(audit, reports[..n], nextId, resource, j, k);
    } else {
      var i := BackfillFrom(audit, reports[..n], nextId, j);
      IdTextInjective(reports[i].id, reports[n].id);
    }
  }

  /** A report with a creation of its own gets no inserted one. */
  lemma BackfillAvoids(audit: seq<AuditRow>, reports: seq<ReportRow>,
      nextId: int, resource: string, a: AuditRow, j: nat)
    requires a in audit && CreatesResource(a, resource) && j < |Backfill(audit, reports, nextId)|
    ensures !CreatesResource(Backfill(audit, reports, nextId)[j], resource)
  {
    hide IdText;
    var i := BackfillFrom(audit, reports, nextId, j);
  }

  ghost predicate OneCreation(audit: seq<AuditRow>, r: ReportRow) {
    exists k :: 0 <= k < |audit| && CreatesResource(audit[k], IdText(r.id))
      && audit[k].eventKey == Some(KEY_PREFIX + IdText(r.id))
      && forall j :: 0 <= j < |audit| && CreatesResource(audit[j], IdText(r.id)) ==> j == k
  }

  lemma KeysOnlyOnCreations(audit: seq<AuditRow>, reports: seq<ReportRow>, admins: Admins, k: nat, r: ReportRow)
    requires k < |audit| && r in reports
    ensures var a := UpgradedRows(audit, reports, admins)[k];
            a.eventKey == Some(KEY_PREFIX + IdText(r.id)) <==> CreatesResource(a, IdText(r.id))
  {
    hide IdText, Normalized, IsDuplicate;
    UpgradedRowsAt(audit, reports, admins);
    ColumnsKept(audit[k], admins);
    var a := UpgradedRows(audit, reports, admins)[k];
    if CreatesResource(a, IdText(r.id)) { assert CreatesReport(a, reports); }
    if a.eventKey == Some(KEY_PREFIX + IdText(r.id)) {
      assert a.eventKey.value[|KEY_PREFIX|..] == IdText(r.id) == a.resourceId.value;
    }
  }

  /** After the upgrade every existing report has exactly one successful creation, under its own event key. */
  lemma ExactlyOneCreation(t: Tables, admins: Admins, r: nat)
    requires UniqueIds(t) && r < |t.reports|
    ensures OneCreation(Upgraded(t, admins).audit, t.reports[r])
  {
    hide IdText, UpgradedRows, EncodesGrant, EncodeReport;
    var reports := EncodeReports(t.reports, admins);
    var rows := UpgradedRows(t.audit, reports, admins);
    var inserted := Backfill(rows, reports, t.nextId);
    var resource := IdText(t.reports[r].id);
    EncodingKeepsIds(t.reports, admins);
    UpgradedRowsAt(t.audit, reports, admins);
    forall k | 0 <= k < |rows|
      ensures rows[k].eventKey == Some(KEY_PREFIX + resource) <==> CreatesResource(rows[k], resource)
    {
      KeysOnlyOnCreations(t.audit, reports, admins, k, reports[r]);
    }
    forall i, j | 0 <= i < |rows| && 0 <= j < |rows| && CreatesResource(rows[i], resource)
        && CreatesResource(rows[j], resource)
      ensures i == j
    {
      AtMostOne(t.audit, reports, admins, i, j, resource);
    }
    OneInTheEnd(rows, reports, t.nextId, r);
  }

  lemma EncodingKeepsIds(reports: seq<ReportRow>, admins: Admins)
    ensures |EncodeReports(reports, admins)| == |reports|
    ensures forall k :: 0 <= k < |reports| ==> EncodeReports(reports, admins)[k].id == reports[k].id
  {}

  ghost predicate AtMostOneOf(rows: seq<AuditRow>, resource: string) {
    forall i, j | 0 <= i < |rows| && 0 <= j < |rows| ::
      CreatesResource(rows[i], resource) && CreatesResource(rows[j], resource) ==> i == j
  }

  lemma OneInTheEnd(rows: seq<AuditRow>, reports: seq<ReportRow>, nextId: int, r: nat)
    requires r < |reports| && forall i, j :: 0 <= i < j < |reports| ==> reports[i].id != reports[j].id
    requires var resource := IdText(reports[r].id);
             forall k :: 0 <= k < |rows| ==>
               (rows[k].eventKey == Some(KEY_PREFIX + resource) <==> CreatesResource(rows[k], resource))
    requires AtMostOneOf(rows, IdText(reports[r].id))
    ensures OneCreation(rows + Backfill(rows, reports, nextId), reports[r])
  {
    hide IdText;
    var inserted := Backfill(rows, reports, nextId);
    var all, resource := rows + inserted, IdText(reports[r].id);
    if k :| 0 <= k < |rows| && CreatesResource(rows[k], resource) {
      forall j | 0 <= j < |all| && CreatesResource(all[j], resource) ensures j == k {
        if j >= |rows| { BackfillAvoids(rows, reports, nextId, resource, rows[k], j - |rows|); }
      }
      assert all[k] == rows[k];
    } else {
      var k := BackfillHas(rows, reports, nextId, r);
      assert all[|rows| + k] == inserted[k];
      forall j | 0 <= j < |all| && CreatesResource(all[j], resource) ensures j == |rows| + k {
        if |rows| <= j < |rows| + k { BackfillOnce(rows, reports, nextId, resource, j - |rows|, k); }
        if j > |rows| + k { BackfillOnce(rows, reports, nextId, resource, k, j - |rows|); }
      }
    }
  }

  lemma {:induction false} EarliestExists(rows: seq<AuditRow>, resource: string, n: nat) returns (k: nat)
    requires n <= |rows| && exists j :: 0 <= j < n && CreatesResource(rows[j], resource)
    ensures k < n && CreatesResource(rows[k], resource)
    ensures forall j :: 0 <= j < n && CreatesResource(rows[j], resource) ==> !Earlier(rows[j], rows[k])
    decreases n
  {
    if j :| 0 <= j < n - 1 && CreatesResource(rows[j], resource) {
      k := EarliestExists(rows, resource, n - 1);
      if CreatesResource(rows[n - 1], resource) && Earlier(rows[n - 1], rows[k]) { k := n - 1; }
    } else {
      k := n - 1;
    }
  }

  /** The upgrade keeps the earliest creation of a report, giving it the key. */
  lemma EarliestCreationSurvives(audit: seq<AuditRow>, reports: seq<ReportRow>, admins: Admins, r: ReportRow, k: nat)
    requires r in reports && k < |audit|
    requires CreatesResource(NormalizedRows(audit, admins)[k], IdText(r.id))
    requires forall j :: 0 <= j < |audit| && CreatesResource(NormalizedRows(audit, admins)[j], IdText(r.id)) ==>
               !Earlier(NormalizedRows(audit, admins)[j], NormalizedRows(audit, admins)[k])
    ensures |UpgradedRows(audit, reports, admins)| == |audit|
    ensures UpgradedRows(audit, reports, admins)[k]
            == NormalizedRows(audit, admins)[k].(eventKey := Some(KEY_PREFIX + IdText(r.id)))
  {
    hide IdText, Normalized;
    var normal := NormalizedRows(audit, admins);
    UpgradedRowsAt(audit, reports, admins);
    ColumnsKept(audit[k], admins);
    assert CreatesReport(normal[k], reports);
    assert !IsDuplicate(normal[k], normal, reports);
  }

  /** The upgrade invents a creation for exactly the reports whose normalized rows hold none. */
  lemma SyntheticExactlyWhereNone(audit: seq<AuditRow>, reports: seq<ReportRow>, admins: Admins, r: ReportRow)
    requires r in reports
    ensures NeedsSynthetic(r, UpgradedRows(audit, reports, admins))
            <==> forall a :: a in NormalizedRows(audit, admins) ==> !CreatesResource(a, IdText(r.id))
  {
    hide IdText, Normalized;
    var normal, rows, resource := NormalizedRows(audit, admins), UpgradedRows(audit, reports, admins), IdText(r.id);
    UpgradedRowsAt(audit, reports, admins);
    forall k | 0 <= k < |rows|
      ensures rows[k].eventKey == Some(KEY_PREFIX + resource) <==> CreatesResource(rows[k], resource)
      ensures CreatesResource(rows[k], resource) ==> CreatesResource(normal[k], resource)
    {
      KeysOnlyOnCreations(audit, reports, admins, k, r);
    }
    if k :| 0 <= k < |normal| && CreatesResource(normal[k], resource) {
      var e := EarliestExists(normal, resource, |normal|);
      EarliestCreationSurvives(audit, reports, admins, r, e);
      assert rows[e] in rows && normal[e] in normal;
    }
  }

  // ---------------------------------------------------------------- snapshots

  /** The snapshot a row's own actor and report call for. */
  ghost function SnapshotOf(a: AuditRow, reports: seq<ReportRow>, d: Directory): Snapshot {
    FillReportOf(FillActor(BLANK, Lookup(d.users, a.actorUserId), d), a, reports, CompaniesOf(d.folders))
  }

  /** Inserted rows and their snapshots are made from the same reports. */
  lemma {:induction false} BackfillPairs(audit: seq<AuditRow>, reports: seq<ReportRow>,
      nextId: int, d: Directory, companies: Companies, k: nat)
    returns (i: nat)
    requires k < |Backfill(audit, reports, nextId)|
    ensures i < |reports| && Backfill(audit, reports, nextId)[k] == Synthetic(reports[i], nextId + k)
    ensures |BackfillSnapshots(audit, reports, d, companies)| == |Backfill(audit, reports, nextId)|
    ensures BackfillSnapshots(audit, reports, d, companies)[k] == SyntheticSnapshot(reports[i], d, companies)
    decreases |reports|
  {
    hide NeedsSynthetic, Synthetic, SyntheticSnapshot;
    var n := |reports| - 1;
    BackfillSize(audit, reports[..n], nextId);
    if k < |Backfill(audit, reports[..n], nextId)| {
      i := BackfillPairs(audit, reports[..n], nextId, d, companies, k);
    } else {
      i := n;
    }
  }

  lemma {:induction false} BackfillSize(audit: seq<AuditRow>, reports: seq<ReportRow>, nextId: int)
    ensures |Backfill(audit, reports, nextId)| == |Backfill(audit, reports, 0)|
    decreases |reports|
  {
    hide NeedsSynthetic, Synthetic;
    if reports != [] {
      BackfillSize(audit, reports[..|reports| - 1], nextId);
    }
  }

  /** The INSERT fills the columns as the two UPDATE statements would have, although it joins on the creator. */
  lemma SyntheticAgrees(r: ReportRow, id: int, reports: seq<ReportRow>, d: Directory)
    requires r in reports && forall i, j :: 0 <= i < j < |reports| ==> reports[i].id != reports[j].id
    requires forall u :: u in d.users ==> u > 0
    ensures SnapshotOf(Synthetic(r, id), reports, d) == SyntheticSnapshot(r, d, CompaniesOf(d.folders))
  {
    hide IdText, CompaniesOf, FillReport, FillActor;
    var found := ReportOf(Synthetic(r, id), reports);
    assert found.Some?;
    IdTextInjective(found.value.id, r.id);
    assert found.value == r;
    assert Lookup(d.users, Owner(r)) == Lookup(d.users, r.createdBy);
  }

  /** Old rows and inserted ones alike carry the snapshot their own actor and report call for. */
  lemma EveryRowHasItsSnapshot(t: Tables, admins: Admins, d: Directory, k: nat)
    requires UniqueIds(t) && k < |Upgraded(t, admins).audit|
    requires forall u :: u in d.users ==> u > 0
    ensures var after := Upgraded(t, admins);
            |UpgradedSnapshots(t, admins, d)| == |after.audit| &&
            UpgradedSnapshots(t, admins, d)[k] == SnapshotOf(after.audit[k], after.reports, d)
  {
    hide UpgradedRows, CompaniesOf, FillReportOf, FillActor, Synthetic, Backfill, BackfillSnapshots, EncodesGrant;
    var reports, companies := EncodeReports(t.reports, admins), CompaniesOf(d.folders);
    var rows := UpgradedRows(t.audit, reports, admins);
    BackfillSize(rows, reports, t.nextId);
    EncodingKeepsIds(t.reports, admins);
    if k >= |rows| {
      var i := BackfillPairs(rows, reports, t.nextId, d, companies, k - |rows|);
      SyntheticAgrees(reports[i], t.nextId + (k - |rows|), reports, d);
    }
  }

  /**
   * An old event of a report is filed under the company the statistics use today, and under none exactly where the
   * report is not below a top-level folder.
   */
  lemma EventsFiledUnderStatsRoot(a: AuditRow, reports: seq<ReportRow>, d: Directory, r: ReportRow)
    requires ReportOf(a, reports) == Some(r)
    ensures var parents, folder := ParentMap(d.folders), r.listing.folder;
            SnapshotOf(a, reports, d).companyId ==
              if folder.Some? && folder.value in d.folders && parents[DiscoveryRoot(parents, folder.value)].None?
              then StatsRoot(parents, folder) else None
  {
    hide FillActor, DiscoveryRoot;
    var parents, folder := ParentMap(d.folders), r.listing.folder;
    if folder.Some? && folder.value in d.folders {
      StatsRootFromDiscoveryRoot(parents, folder.value);
    }
  }

  // ---------------------------------------------------------------- the downgrade undoes the upgrade

  /** Equal up to a NULL meta object against an empty one. */
  predicate SameRow(a: AuditRow, b: AuditRow) {
    b == a.(meta := b.meta) && Object(a.meta) == Object(b.meta)
  }

  /** The same rows in the same order; event keys, which did not exist, aside. */
  ghost predicate SameRows(before: seq<AuditRow>, back: seq<AuditRow>) {
    |back| == |before| && forall k :: 0 <= k < |back| ==> SameRow(WithoutKey(before[k]), back[k])
  }

  /** The meta object holds none of the keys the migration reserves. */
  predicate Unreserved(a: AuditRow) {
    !HasKey(a.meta, ADMIN_KEY) && !HasKey(a.meta, ACTION_KEY) && !HasKey(a.meta, RESULT_KEY)
  }

  function DowngradedRow(a: AuditRow): AuditRow {
    WithoutKey(RestoreActor(RestoreAction(a)))
  }

  lemma DowngradedMeta(a: AuditRow)
    ensures Object(DowngradedRow(a).meta) == Object(a.meta) - {ACTION_KEY, RESULT_KEY, ADMIN_KEY}
  {
    assert Object(a.meta) - {ACTION_KEY} - {RESULT_KEY} - {ADMIN_KEY}
      == Object(a.meta) - {ACTION_KEY, RESULT_KEY, ADMIN_KEY};
  }

  lemma UpgradedMeta(a: AuditRow, duplicate: bool, reports: seq<ReportRow>, admins: Admins)
    ensures Object(UpgradedRow(Normalized(a, admins), duplicate, reports).meta) - {ACTION_KEY, RESULT_KEY, ADMIN_KEY}
            == Object(a.meta) - {ACTION_KEY, RESULT_KEY, ADMIN_KEY}
  {
    hide CreatesReport;
  }

  /** A row comes back as it was if and only if its meta object held no reserved key. */
  lemma RowRestoredIff(a: AuditRow, duplicate: bool, reports: seq<ReportRow>, admins: Admins)
    requires duplicate ==> CreatesReport(Normalized(a, admins), reports)
    ensures SameRow(WithoutKey(a), DowngradedRow(UpgradedRow(Normalized(a, admins), duplicate, reports)))
            <==> Unreserved(a)
  {
    var b := UpgradedRow(Normalized(a, admins), duplicate, reports);
    var c := DowngradedRow(b);
    DowngradedMeta(b);
    UpgradedMeta(a, duplicate, reports, admins);
    assert Object(c.meta) == Object(a.meta) - {ACTION_KEY, RESULT_KEY, ADMIN_KEY};
    if Unreserved(a) {
      assert Object(a.meta) - {ACTION_KEY, RESULT_KEY, ADMIN_KEY} == Object(a.meta);
      RowColumnsRestored(a, duplicate, reports, admins);
    } else {
      assert ADMIN_KEY !in Object(c.meta) && ACTION_KEY !in Object(c.meta) && RESULT_KEY !in Object(c.meta);
    }
  }

  /** Equal in everything but the meta object and the event key. */
  predicate SameColumns(a: AuditRow, b: AuditRow) {
    b == a.(meta := b.meta, eventKey := b.eventKey)
  }

  lemma CreationColumns(a: AuditRow, reports: seq<ReportRow>)
    ensures CreatesReport(a, reports) ==> a.action == CREATE && a.result == SUCCESS && a.resourceId.Some?
  {
    hide IdText;
  }

  /** Undoing the two changes of action and result; the key of the third change stays as it is. */
  lemma ActionRestored(b: AuditRow, duplicate: bool, reports: seq<ReportRow>)
    requires !HasKey(b.meta, ACTION_KEY) && !HasKey(b.meta, RESULT_KEY)
    requires duplicate ==> CreatesReport(NormalizePbix(b), reports)
    ensures var c := RestoreAction(UpgradedRow(NormalizePbix(b), duplicate, reports));
            SameColumns(b, c) && (HasKey(c.meta, ADMIN_KEY) <==> HasKey(b.meta, ADMIN_KEY)) &&
            (HasKey(b.meta, ADMIN_KEY) ==> c.meta.value[ADMIN_KEY] == b.meta.value[ADMIN_KEY])
  {
    hide IdText, CreatesReport;
    CreationColumns(NormalizePbix(b), reports);
    CreationColumns(Demote(NormalizePbix(b), duplicate), reports);
  }

  lemma ActorRestored(a: AuditRow, admins: Admins, c: AuditRow)
    requires !HasKey(a.meta, ADMIN_KEY)
    requires var b := DetachActor(a, admins);
             SameColumns(b, c) && (HasKey(c.meta, ADMIN_KEY) <==> HasKey(b.meta, ADMIN_KEY)) &&
             (HasKey(b.meta, ADMIN_KEY) ==> c.meta.value[ADMIN_KEY] == b.meta.value[ADMIN_KEY])
    ensures SameColumns(a, RestoreActor(c))
  {}

  lemma RowColumnsRestored(a: AuditRow, duplicate: bool, reports: seq<ReportRow>, admins: Admins)
    requires Unreserved(a)
    requires duplicate ==> CreatesReport(Normalized(a, admins), reports)
    ensures var c := DowngradedRow(UpgradedRow(Normalized(a, admins), duplicate, reports));
            c == WithoutKey(a).(meta := c.meta)
  {
    hide CreatesReport, UpgradedRow, RestoreAction, RestoreActor, NormalizePbix;
    var bare := WithoutKey(a);
    var b := DetachActor(bare, admins);
    ActionRestored(b, duplicate, reports);
    ActorRestored(bare, admins, RestoreAction(UpgradedRow(NormalizePbix(b), duplicate, reports)));
  }

  lemma {:induction false} DeleteCat<T>(a: seq<T>, b: seq<T>, doomed: T -> bool)
    ensures Delete(a + b, doomed) == Delete(a, doomed) + Delete(b, doomed)
    decreases |b|
  {
    if b == [] {
      assert a + b == a;
    } else {
      var n := |b| - 1;
      assert (a + b)[..|a| + n] == a + b[..n];
      DeleteCat(a, b[..n], doomed);
    }
  }

  lemma DeleteLast<T>(front: seq<T>, last: T, doomed: T -> bool)
    ensures Delete(front + [last], doomed) == Delete(front, doomed) + if doomed(last) then [] else [last]
  {
    assert (front + [last])[..|front|] == front;
  }

  lemma {:induction false} DeleteNone<T>(rows: seq<T>, doomed: T -> bool)
    requires forall k :: 0 <= k < |rows| ==> !doomed(rows[k])
    ensures Delete(rows, doomed) == rows
    decreases |rows|
  {
    hide Delete;
    if rows == [] {
      DeleteNothing(doomed);
    } else {
      var n := |rows| - 1;
      assert rows == rows[..n] + [rows[n]];
      DeleteLast(rows[..n], rows[n], doomed);
      DeleteNone(rows[..n], doomed);
    }
  }

  lemma DeleteNothing<T>(doomed: T -> bool)
    ensures Delete([], doomed) == []
  {}

  lemma {:induction false} DeleteAll<T>(rows: seq<T>, doomed: T -> bool)
    requires forall k :: 0 <= k < |rows| ==> doomed(rows[k])
    ensures Delete(rows, doomed) == []
    decreases |rows|
  {
    if rows != [] { DeleteAll(rows[..|rows| - 1], doomed); }
  }

  lemma {:induction false} DeleteShortens<T>(rows: seq<T>, doomed: T -> bool)
    ensures |Delete(rows, doomed)| <= |rows|
    ensures (exists k :: 0 <= k < |rows| && doomed(rows[k])) ==> |Delete(rows, doomed)| < |rows|
    decreases |rows|
  {
    hide Delete;
    if rows == [] {
      DeleteNothing(doomed);
    } else {
      var n := |rows| - 1;
      assert rows == rows[..n] + [rows[n]];
      DeleteLast(rows[..n], rows[n], doomed);
      DeleteShortens(rows[..n], doomed);
      if k :| 0 <= k < n && doomed(rows[k]) {
        assert rows[..n][k] == rows[k];
      }
    }
  }

  /** The canonical creation of its report, already marked as the migration marks its own rows. */
  predicate MistakenForBackfill(t: Tables, admins: Admins, k: nat)
    requires k < |t.audit|
  {
    var normal := NormalizedRows(t.audit, admins);
    var reports := EncodeReports(t.reports, admins);
    CreatesReport(normal[k], reports) && !IsDuplicate(normal[k], normal, reports)
    && TextAt(t.audit[k].meta, "target") == Some(BACKFILL)
  }

  lemma DeletedIff(t: Tables, admins: Admins, k: nat)
    requires k < |t.audit|
    ensures var rows := UpgradedRows(t.audit, EncodeReports(t.reports, admins), admins);
            |rows| == |t.audit| && (IsBackfilled(rows[k]) <==> MistakenForBackfill(t, admins, k))
  {
    hide IdText, Normalized, EncodeReports;
    var reports := EncodeReports(t.reports, admins);
    UpgradedRowsAt(t.audit, reports, admins);
    ColumnsKept(t.audit[k], admins);
    var normal := NormalizedRows(t.audit, admins);
    TargetKept(t.audit[k], IsDuplicate(normal[k], normal, reports), reports, admins);
    if IsDuplicate(normal[k], normal, reports) {
      assert UpgradedRow(normal[k], true, reports).eventKey == None by { DemotedHasNoKey(normal[k], reports); }
    }
  }

  lemma DemotedHasNoKey(a: AuditRow, reports: seq<ReportRow>)
    requires a.eventKey == None
    ensures UpgradedRow(a, true, reports).eventKey == None
  {
    hide IdText;
  }

  lemma TargetKept(a: AuditRow, duplicate: bool, reports: seq<ReportRow>, admins: Admins)
    ensures TextAt(UpgradedRow(Normalized(a, admins), duplicate, reports).meta, "target") == TextAt(a.meta, "target")
  {
    hide CreatesReport, IdText;
  }

  /**
   * Upgrade, then downgrade: the audit rows come back, one for one and in order, if and only if no row held
   * a reserved meta key and no canonical creation was already marked as a backfilled one.
   */
  lemma AuditRestoredIff(t: Tables, admins: Admins)
    ensures SameRows(t.audit, Downgraded(Upgraded(t, admins), admins).audit) <==>
            (forall k :: 0 <= k < |t.audit| ==> Unreserved(t.audit[k]) && !MistakenForBackfill(t, admins, k))
  {
    hide UpgradedRows, MistakenForBackfill, IsBackfilled, Unreserved, SameRow, WithoutKey, RestoreAction, RestoreActor,
      EncodeGrants, EncodeReports, Backfill, DecodeGrants, DecodeReports, DropRedundantGrants, Delete, DowngradedRow;
    var reports := EncodeReports(t.reports, admins);
    var rows := UpgradedRows(t.audit, reports, admins);
    var inserted := Backfill(rows, reports, t.nextId);
    var back := Downgraded(Upgraded(t, admins), admins).audit;
    UpgradedRowsAt(t.audit, reports, admins);
    forall k | 0 <= k < |inserted| ensures IsBackfilled(inserted[k]) { BackfilledIsMarked(rows, reports, t.nextId, k); }
    DeleteCat(rows, inserted, IsBackfilled);
    DeleteAll(inserted, IsBackfilled);
    DeleteShortens(rows, IsBackfilled);
    forall k | 0 <= k < |rows| ensures IsBackfilled(rows[k]) <==> MistakenForBackfill(t, admins, k) {
      DeletedIff(t, admins, k);
    }
    if forall k :: 0 <= k < |rows| ==> !IsBackfilled(rows[k]) {
      DeleteNone(rows, IsBackfilled);
      forall k | 0 <= k < |rows| ensures SameRow(WithoutKey(t.audit[k]), back[k]) <==> Unreserved(t.audit[k]) {
        RowRestoredAt(t, admins, k);
        assert back[k] == DowngradedRow(rows[k]) by { StepsCompose(rows[k]); }
      }
    }
  }

  lemma StepsCompose(a: AuditRow)
    ensures DowngradedRow(a) == WithoutKey(RestoreActor(RestoreAction(a)))
  {}

  lemma RowRestoredAt(t: Tables, admins: Admins, k: nat)
    requires k < |t.audit|
    ensures var rows := UpgradedRows(t.audit, EncodeReports(t.reports, admins), admins);
            |rows| == |t.audit| && (SameRow(WithoutKey(t.audit[k]), DowngradedRow(rows[k])) <==> Unreserved(t.audit[k]))
  {
    hide DowngradedRow, UpgradedRow, Normalized, EncodeReports, Unreserved, SameRow, UpgradedRows;
    var reports, normal := EncodeReports(t.reports, admins), NormalizedRows(t.audit, admins);
    UpgradedRowsAt(t.audit, reports, admins);
    RowRestoredIff(t.audit[k], IsDuplicate(normal[k], normal, reports), reports, admins);
  }

  lemma BackfilledIsMarked(audit: seq<AuditRow>, reports: seq<ReportRow>, nextId: int, k: nat)
    requires k < |Backfill(audit, reports, nextId)|
    ensures IsBackfilled(Backfill(audit, reports, nextId)[k])
  {
    hide IdText;
    var i := BackfillFrom(audit, reports, nextId, k);
  }

  lemma ReportRestoredIff(r: ReportRow, admins: Admins)
    ensures DecodeReport(EncodeReport(r, admins), admins) == r <==> !ByEncodedAdmin(r, admins)
  {}

  /** The report rows come back if and only if none carried the negative id of a local administrator before. */
  lemma ReportsRestoredIff(t: Tables, admins: Admins)
    ensures Downgraded(Upgraded(t, admins), admins).reports == t.reports
            <==> forall k :: 0 <= k < |t.reports| ==> !ByEncodedAdmin(t.reports[k], admins)
  {
    hide UpgradedRows, EncodeGrants, Backfill, DecodeGrants,
      DropRedundantGrants, Delete, EncodeReport, DecodeReport, ByEncodedAdmin;
    var back := Downgraded(Upgraded(t, admins), admins).reports;
    forall k | 0 <= k < |t.reports| ensures back[k] == t.reports[k] <==> !ByEncodedAdmin(t.reports[k], admins) {
      ReportRestoredIff(t.reports[k], admins);
    }
  }

  // ---------------------------------------------------------------- grants

  lemma EncodedGrantDecodes(g: GrantRow, reports: seq<ReportRow>, admins: Admins)
    requires EncodesGrant(g, reports, admins)
    ensures g.subjectId > 0
    ensures DecodesGrant(g.(subjectId := -g.subjectId), EncodeReports(reports, admins), admins)
  {
    var r :| r in reports && ByLocalAdmin(r, admins) && AutomaticGrant(g, r);
    var k :| 0 <= k < |reports| && reports[k] == r;
    var r' := EncodeReports(reports, admins)[k];
    assert r' in EncodeReports(reports, admins) && ByEncodedAdmin(r', admins);
  }

  lemma DecodedGrantIsNegative(g: GrantRow, reports: seq<ReportRow>, admins: Admins)
    requires DecodesGrant(g, reports, admins)
    ensures g.subjectId < 0
  {}

  lemma NoGrantIsRedundant(t: Tables, admins: Admins, k: nat)
    requires UniqueGrants(t.grants) && k < |t.grants|
    requires EncodesGrant(t.grants[k], t.reports, admins)
    ensures var encoded := EncodeGrants(t.grants, t.reports, admins);
            forall h :: h in encoded ==> !SameGrantExceptSign(h, encoded[k])
  {
    hide EncodesGrant;
    var encoded := EncodeGrants(t.grants, t.reports, admins);
    EncodedGrantDecodes(t.grants[k], t.reports, admins);
    forall j | 0 <= j < |encoded| ensures !SameGrantExceptSign(encoded[j], encoded[k]) {
      if EncodesGrant(t.grants[j], t.reports, admins) { EncodedGrantDecodes(t.grants[j], t.reports, admins); }
    }
  }

  /**
   * The grants come back, row for row, if and only if none of them already stood under the negative id that
   * the upgrade gives a report's local administrator.
   */
  lemma GrantsRestoredIff(t: Tables, admins: Admins)
    requires UniqueGrants(t.grants)
    ensures Downgraded(Upgraded(t, admins), admins).grants == t.grants <==>
            forall k :: 0 <= k < |t.grants| ==> !DecodesGrant(t.grants[k], EncodeReports(t.reports, admins), admins)
  {
    hide UpgradedRows, Backfill, Delete, EncodeReports, DecodeReports,
      DecodesGrant, EncodesGrant, UniqueGrants, SameGrantExceptSign;
    var reports := EncodeReports(t.reports, admins);
    var encoded := EncodeGrants(t.grants, t.reports, admins);
    var redundant := (g: GrantRow) =>
      DecodesGrant(g, reports, admins) && exists h :: h in encoded && SameGrantExceptSign(h, g);
    var back := Downgraded(Upgraded(t, admins), admins).grants;
    assert back == DecodeGrants(Delete(encoded, redundant), reports, admins);
    DeleteShortens(encoded, redundant);
    forall k | 0 <= k < |t.grants|
      ensures EncodesGrant(t.grants[k], t.reports, admins) ==>
                !redundant(encoded[k]) && DecodesGrant(encoded[k], reports, admins) && t.grants[k].subjectId > 0
      ensures DecodesGrant(t.grants[k], reports, admins) ==> t.grants[k].subjectId < 0
    {
      if EncodesGrant(t.grants[k], t.reports, admins) {
        EncodedGrantDecodes(t.grants[k], t.reports, admins);
        NoGrantIsRedundant(t, admins, k);
      }
      if DecodesGrant(t.grants[k], reports, admins) { DecodedGrantIsNegative(t.grants[k], reports, admins); }
    }
    if forall k :: 0 <= k < |encoded| ==> !redundant(encoded[k]) {
      DeleteNone(encoded, redundant);
      forall k | 0 <= k < |t.grants| ensures back[k] == t.grants[k] <==> !DecodesGrant(t.grants[k], reports, admins) {}
    }
  }

  /** `upgrade` goes through exactly when no grant stands where one of those it encodes has to go. */
  lemma UpgradeSucceedsIff(t: Tables, admins: Admins)
    requires UniqueGrants(t.grants)
    ensures UniqueGrants(EncodeGrants(t.grants, t.reports, admins)) <==>
            forall j, k :: 0 <= j < |t.grants| && 0 <= k < |t.grants| && EncodesGrant(t.grants[k], t.reports, admins)
              ==> !SameGrantExceptSign(t.grants[j], t.grants[k])
  {
    hide EncodesGrant;
    var encoded := EncodeGrants(t.grants, t.reports, admins);
    forall k | 0 <= k < |t.grants| ensures EncodesGrant(t.grants[k], t.reports, admins) ==> t.grants[k].subjectId > 0 {
      if EncodesGrant(t.grants[k], t.reports, admins) { EncodedGrantDecodes(t.grants[k], t.reports, admins); }
    }
  }

  lemma {:induction false} DeletedKeepsUnique(grants: seq<GrantRow>, doomed: GrantRow -> bool)
    requires UniqueGrants(grants)
    ensures UniqueGrants(Delete(grants, doomed))
    ensures forall g :: g in Delete(grants, doomed) ==> g in grants && !doomed(g)
    decreases |grants|
  {
    if grants != [] {
      var n := |grants| - 1;
      assert grants == grants[..n] + [grants[n]];
      DeletedKeepsUnique(grants[..n], doomed);
      forall g | g in Delete(grants[..n], doomed) ensures !SameGrant(g, grants[n]) {
        var i :| 0 <= i < n && grants[..n][i] == g;
      }
    }
  }

  /** The redundancy delete is what keeps `downgrade` from ever meeting the unique constraint. */
  lemma DowngradeNeverConflicts(grants: seq<GrantRow>, reports: seq<ReportRow>, admins: Admins)
    requires UniqueGrants(grants)
    ensures UniqueGrants(DecodeGrants(DropRedundantGrants(grants, reports, admins), reports, admins))
  {
    hide DecodesGrant, Delete;
    var redundant := (g: GrantRow) =>
      DecodesGrant(g, reports, admins) && exists h :: h in grants && SameGrantExceptSign(h, g);
    var kept := Delete(grants, redundant);
    DeletedKeepsUnique(grants, redundant);
    var decoded := DecodeGrants(kept, reports, admins);
    forall i, j | 0 <= i < |kept| && 0 <= j < |kept| && DecodesGrant(kept[i], reports, admins)
      ensures !SameGrantExceptSign(kept[j], kept[i])
    {
      assert kept[i] in kept && kept[j] in kept;
    }
  }

  // ---------------------------------------------------------------- inputs the downgrade does not restore

  /** A row whose meta object already holds a reserved key loses it. */
  lemma ReservedKeyIsLost(a: AuditRow, t: Tables, admins: Admins)
    requires a.meta == Some(map[ACTION_KEY := Text("login")]) && t.audit == [a]
    ensures !SameRows(t.audit, Downgraded(Upgraded(t, admins), admins).audit)
  {
    hide Upgraded, Downgraded, MistakenForBackfill;
    AuditRestoredIff(t, admins);
    assert !Unreserved(t.audit[0]);
  }

  /** A creation that already carries the mark of the backfill is deleted with it. */
  lemma MarkedCreationIsDeleted(admins: Admins)
    ensures var a := AuditRow(1, None, None, CREATE, SUCCESS, Some("report"), Some("7"), None, 0,
              Some(map["target" := Text(BACKFILL)]));
            var t := Tables([a], [ReportRow(7, None, None, None, 0, Listing(None, None, "a", None))], [], 2);
            Downgraded(Upgraded(t, admins), admins).audit == []
  {
    hide UpgradedRows, IsBackfilled, IdText, Backfill, RestoreAction, RestoreActor, WithoutKey;
    var a := AuditRow(1, None, None, CREATE, SUCCESS, Some("report"), Some(IdText(7)), None, 0,
      Some(map["target" := Text(BACKFILL)]));
    var t := Tables([a], [ReportRow(7, None, None, None, 0, Listing(None, None, "a", None))], [], 2);
    IdTextOfSeven();
    MarkedCreationIsMistaken(a, t, admins);
    DeletedIff(t, admins, 0);
    var reports := EncodeReports(t.reports, admins);
    var rows := UpgradedRows(t.audit, reports, admins);
    var inserted := Backfill(rows, reports, t.nextId);
    forall k | 0 <= k < |inserted| ensures IsBackfilled(inserted[k]) { BackfilledIsMarked(rows, reports, t.nextId, k); }
    DeleteAll(rows + inserted, IsBackfilled);
  }

  lemma IdTextOfSeven()
    ensures IdText(7) == "7"
  {}

  lemma MarkedCreationIsMistaken(a: AuditRow, t: Tables, admins: Admins)
    requires a == AuditRow(1, None, None, CREATE, SUCCESS, Some("report"), Some(IdText(7)), None, 0,
                           Some(map["target" := Text(BACKFILL)]))
    requires t == Tables([a], [ReportRow(7, None, None, None, 0, Listing(None, None, "a", None))], [], 2)
    ensures MistakenForBackfill(t, admins, 0)
  {
    hide IdText;
    var normal, reports := NormalizedRows(t.audit, admins), EncodeReports(t.reports, admins);
    assert Normalized(a, admins) == a;
    assert normal == [a] && reports[0] == t.reports[0];
    assert CreatesResource(a, IdText(reports[0].id));
  }

  /** A report and its grant that already stood under a local administrator's negative id come back under the other. */
  lemma NegativeIdIsLost(created: int)
    ensures var admins: Admins := map[5 := "kim"];
            var report, grant := ReportRow(7, Some(-5), Some("kim"), None, created, Listing(None, None, "a", None)),
                GrantRow(7, "user", -5, "VIEW_STATS", created);
            var back := Downgraded(Upgraded(Tables([], [report], [grant], 1), admins), admins);
            back.reports == [report.(createdBy := Some(5))] && back.grants == [grant.(subjectId := 5)]
  {
    hide UpgradedRows, Backfill, Delete, IsBackfilled, RestoreAction, RestoreActor, WithoutKey;
    var admins: Admins := map[5 := "kim"];
    var report, grant := ReportRow(7, Some(-5), Some("kim"), None, created, Listing(None, None, "a", None)),
      GrantRow(7, "user", -5, "VIEW_STATS", created);
    assert EncodeReports([report], admins) == [report];
    assert EncodeGrants([grant], [report], admins) == [grant];
    assert ByEncodedAdmin(report, admins) && AutomaticGrant(grant, report) && report in [report];
    DeleteNone([grant], (g: GrantRow) =>
      DecodesGrant(g, [report], admins) && exists h :: h in [grant] && SameGrantExceptSign(h, g));
    assert DropRedundantGrants([grant], [report], admins) == [grant];
  }
}
