/**
 The audit-ledger migration a4e9c7d2f613: its UPDATE, INSERT and DELETE statements as functions on whole
 tables, and `upgrade` and `downgrade` as the programs that run them in order.
 */
module LedgerMigration {
  import opened FolderForest
  import opened FolderIndex
  import opened Options
  import SnapshotRoots

  // ---------------------------------------------------------------- rows

  datatype Json = Number(n: int) | Text(s: string)

  /** A JSONB object column; NULL is None. */
  type Meta = Option<map<string, Json>>

  datatype AuditRow = AuditRow(
    id: int, actorUserId: Option<int>, actorLabel: Option<string>, action: string, result: string,
    resourceType: Option<string>, resourceId: Option<string>, eventKey: Option<string>, occurredAt: int, meta: Meta)

  /** How a report is shown and where it is filed. */
  datatype Listing = Listing(
    displayName: Option<string>, reportName: Option<string>, reportId: string, folder: Option<int>)

  datatype ReportRow = ReportRow(
    id: int, createdBy: Option<int>, createdByLabel: Option<string>, authorLabel: Option<string>, createdAt: int,
    listing: Listing)

  datatype GrantRow = GrantRow(reportId: int, subjectType: string, subjectId: int, permission: string, createdAt: int)

  /** local_admins: id to user name. */
  type Admins = map<int, string>

  datatype UserRow = UserRow(name: Option<string>, externalId: Option<string>, departmentId: Option<int>)

  /** The tables the snapshots are taken from. */
  datatype Directory = Directory(users: map<int, UserRow>, departments: map<int, string>, folders: FolderTable)

  /** The nine snapshot columns of an audit row; they exist only between `upgrade` and `downgrade`. */
  datatype Snapshot = Snapshot(
    actorName: Option<string>, actorEmpNo: Option<string>, departmentId: Option<int>, departmentName: Option<string>,
    reportName: Option<string>, companyId: Option<int>, companyName: Option<string>,
    ownerUserId: Option<int>, ownerLabel: Option<string>)

  const BLANK := Snapshot(None, None, None, None, None, None, None, None, None)

  const CREATE := "report_create"
  const UPDATE := "report_update"
  const SUCCESS := "success"
  const ADMIN_KEY := "_stats_migration_local_admin_id"
  const ACTION_KEY := "_stats_migration_original_action"
  const RESULT_KEY := "_stats_migration_original_result"
  const BACKFILL := "migration_backfill"
  const KEY_PREFIX := "report-create:"

  // ---------------------------------------------------------------- SQL building blocks

  /** UPDATE without WHERE: every row through `f`. */
  function Update<T>(rows: seq<T>, f: T -> T): (updated: seq<T>)
    ensures |updated| == |rows| && forall k :: 0 <= k < |rows| ==> updated[k] == f(rows[k])
  {
    seq(|rows|, k requires 0 <= k < |rows| => f(rows[k]))
  }

  /** DELETE: the rows for which `doomed` does not hold, in order. */
  function Delete<T>(rows: seq<T>, doomed: T -> bool): seq<T> {
    if rows == [] then []
    else
      var n := |rows| - 1;
      Delete(rows[..n], doomed) + if doomed(rows[n]) then [] else [rows[n]]
  }

  /** `COALESCE(meta, '{}')` */
  function Object(meta: Meta): map<string, Json> {
    match meta case None => map[] case Some(m) => m
  }

  /** `meta ? key` */
  predicate HasKey(meta: Meta, key: string) {
    meta.Some? && key in meta.value
  }

  function Digits(n: nat): string {
    (if n < 10 then "" else Digits(n / 10)) + ["0123456789"[n % 10]]
  }

  /** `n::text` */
  function IdText(n: int): string {
    if n < 0 then "-" + Digits(-n) else Digits(n)
  }

  /** `meta ->> key` */
  function TextAt(meta: Meta, key: string): Option<string> {
    if !HasKey(meta, key) then None
    else match meta.value[key] case Text(s) => Some(s) case Number(n) => Some(IdText(n))
  }

  function Coalesce<T>(first: Option<T>, second: T): T {
    match first case Some(t) => t case None => second
  }

  // ---------------------------------------------------------------- upgrade, statement by statement

  /** The label a local administrator's reports carry. */
  predicate AdminLabel(shown: Option<string>, name: string) {
    shown == Some(name) || shown == Some(name + "(" + name + ")")
  }

  /** Created by a local administrator, still under the positive id. */
  predicate ByLocalAdmin(r: ReportRow, admins: Admins) {
    r.createdBy.Some? && r.createdBy.value in admins && r.createdBy.value > 0
    && AdminLabel(r.createdByLabel, admins[r.createdBy.value])
  }

  /** The automatic VIEW_STATS grant of the report's creator, made in the transaction that made the report. */
  predicate AutomaticGrant(g: GrantRow, r: ReportRow) {
    r.createdBy.Some? && g.reportId == r.id && g.subjectType == "user" && g.subjectId == r.createdBy.value
    && g.permission == "VIEW_STATS" && g.createdAt == r.createdAt
  }

  predicate EncodesGrant(g: GrantRow, reports: seq<ReportRow>, admins: Admins) {
    exists r :: r in reports && ByLocalAdmin(r, admins) && AutomaticGrant(g, r)
  }

  function EncodeGrants(grants: seq<GrantRow>, reports: seq<ReportRow>, admins: Admins): seq<GrantRow> {
    Update(grants, (g: GrantRow) => if EncodesGrant(g, reports, admins) then g.(subjectId := -g.subjectId) else g)
  }

  function EncodeReport(r: ReportRow, admins: Admins): ReportRow {
    if ByLocalAdmin(r, admins) then r.(createdBy := Some(-r.createdBy.value)) else r
  }

  function EncodeReports(reports: seq<ReportRow>, admins: Admins): seq<ReportRow> {
    Update(reports, (r: ReportRow) => EncodeReport(r, admins))
  }

  /** A local administrator's actor id moves into the meta object. */
  function DetachActor(a: AuditRow, admins: Admins): AuditRow {
    if a.actorUserId.Some? && a.actorUserId.value in admins && a.actorLabel == Some(admins[a.actorUserId.value]) then
      a.(meta := Some(Object(a.meta)[ADMIN_KEY := Number(a.actorUserId.value)]), actorUserId := None)
    else a
  }

  predicate EnqueuedPbix(a: AuditRow) {
    a.result == SUCCESS &&
    ((a.action == CREATE && TextAt(a.meta, "target") == Some("pbix_upload")) ||
     (a.action == UPDATE && TextAt(a.meta, "target") == Some("replace_pbix")))
  }

  /** An upload that was only enqueued becomes an accepted update. */
  function NormalizePbix(a: AuditRow): AuditRow {
    if EnqueuedPbix(a) then
      a.(action := if a.action == CREATE then UPDATE else a.action,
         result := "accepted",
         meta := Some(Object(a.meta)[ACTION_KEY := Text(a.action)][RESULT_KEY := Text(a.result)]))
    else a
  }

  /** A successful creation of a report, by resource id. */
  predicate CreatesResource(a: AuditRow, resource: string) {
    a.action == CREATE && a.result == SUCCESS && a.resourceType == Some("report") && a.resourceId == Some(resource)
  }

  predicate CreatesReport(a: AuditRow, reports: seq<ReportRow>) {
    exists r :: r in reports && CreatesResource(a, IdText(r.id))
  }

  predicate Earlier(a: AuditRow, b: AuditRow) {
    a.occurredAt < b.occurredAt || (a.occurredAt == b.occurredAt && a.id < b.id)
  }

  /** `row_number() > 1`: some other creation of the same report comes earlier. */
  predicate IsDuplicate(a: AuditRow, audit: seq<AuditRow>, reports: seq<ReportRow>) {
    CreatesReport(a, reports) &&
    exists b :: b in audit && CreatesReport(b, reports) && b.resourceId == a.resourceId && Earlier(b, a)
  }

  function Demote(a: AuditRow, duplicate: bool): AuditRow {
    if duplicate then a.(action := UPDATE, meta := Some(Object(a.meta)[ACTION_KEY := Text(CREATE)])) else a
  }

  function GiveKey(a: AuditRow, reports: seq<ReportRow>): AuditRow {
    if CreatesReport(a, reports) && a.eventKey.None? then a.(eventKey := Some(KEY_PREFIX + a.resourceId.value)) else a
  }

  /** The row of `folder_roots` for a folder: its top-level folder, with the name. */
  type Companies = map<int, (int, string)>

  /** SET actor columns FROM the user with the actor's id. */
  function FillActor(s: Snapshot, user: Option<UserRow>, d: Directory): Snapshot {
    match user
    case None => s
    case Some(u) =>
      s.(actorName := u.name, actorEmpNo := u.externalId, departmentId := u.departmentId,
         departmentName := Lookup(d.departments, u.departmentId))
  }

  function Owner(r: ReportRow): Option<int> {
    if r.createdBy.Some? && r.createdBy.value > 0 then r.createdBy else None
  }

  function OwnerLabel(r: ReportRow): Option<string> {
    if r.createdByLabel.Some? then r.createdByLabel else r.authorLabel
  }

  /** SET report columns FROM the report. */
  function FillReport(s: Snapshot, r: ReportRow, companies: Companies): Snapshot {
    var company := Lookup(companies, r.listing.folder);
    s.(reportName := Some(Coalesce(r.listing.displayName, Coalesce(r.listing.reportName, r.listing.reportId))),
       companyId := (if company.Some? then Some(company.value.0) else None),
       companyName := (if company.Some? then Some(company.value.1) else None),
       ownerUserId := Owner(r), ownerLabel := OwnerLabel(r))
  }

  /** The report an audit row is about. */
  function ReportOf(a: AuditRow, reports: seq<ReportRow>): (r: Option<ReportRow>)
    ensures r.Some? ==>
              r.value in reports && a.resourceType == Some("report") && a.resourceId == Some(IdText(r.value.id))
    ensures r.None? ==>
              forall x :: x in reports ==> a.resourceType != Some("report") || a.resourceId != Some(IdText(x.id))
  {
    if reports == [] then None
    else if a.resourceType == Some("report") && a.resourceId == Some(IdText(reports[0].id)) then Some(reports[0])
    else ReportOf(a, reports[1..])
  }

  function FillReportOf(s: Snapshot, a: AuditRow, reports: seq<ReportRow>, companies: Companies): Snapshot {
    match ReportOf(a, reports) case Some(r) => FillReport(s, r, companies) case None => s
  }

  /** The row inserted for a report without a creation of its own. */
  function Synthetic(r: ReportRow, id: int): AuditRow {
    AuditRow(
      id, Owner(r), OwnerLabel(r), CREATE, SUCCESS,
      Some("report"), Some(IdText(r.id)), Some(KEY_PREFIX + IdText(r.id)), r.createdAt,
      Some(map["report_id" := Number(r.id), "target" := Text(BACKFILL)]))
  }

  predicate NeedsSynthetic(r: ReportRow, audit: seq<AuditRow>) {
    (forall a :: a in audit ==> !CreatesResource(a, IdText(r.id))) &&
    (forall a :: a in audit ==> a.eventKey != Some(KEY_PREFIX + IdText(r.id)))   // ON CONFLICT DO NOTHING
  }

  /** INSERT ... SELECT over the reports, with ids from the sequence. */
  function Backfill(audit: seq<AuditRow>, reports: seq<ReportRow>, nextId: int): seq<AuditRow> {
    if reports == [] then []
    else
      var n := |reports| - 1;
      var rows := Backfill(audit, reports[..n], nextId);
      rows + if NeedsSynthetic(reports[n], audit) then [Synthetic(reports[n], nextId + |rows|)] else []
  }

  /** The snapshot columns of the same INSERT, which joins the users on the creator. */
  function SyntheticSnapshot(r: ReportRow, d: Directory, companies: Companies): Snapshot {
    FillReport(FillActor(BLANK, Lookup(d.users, r.createdBy), d), r, companies)
  }

  function BackfillSnapshots(audit: seq<AuditRow>, reports: seq<ReportRow>, d: Directory, companies: Companies)
    : (snapshots: seq<Snapshot>)
    ensures |snapshots| == |Backfill(audit, reports, 0)|
  {
    if reports == [] then []
    else
      var n := |reports| - 1;
      BackfillSnapshots(audit, reports[..n], d, companies) +
      if NeedsSynthetic(reports[n], audit) then [SyntheticSnapshot(reports[n], d, companies)] else []
  }

  // ---------------------------------------------------------------- downgrade, statement by statement

  predicate IsBackfilled(a: AuditRow) {
    a.eventKey.Some? && KEY_PREFIX <= a.eventKey.value && TextAt(a.meta, "target") == Some(BACKFILL)
  }

  function RestoreAction(a: AuditRow): AuditRow {
    if HasKey(a.meta, ACTION_KEY) || HasKey(a.meta, RESULT_KEY) then
      a.(action := Coalesce(TextAt(a.meta, ACTION_KEY), a.action),
         result := Coalesce(TextAt(a.meta, RESULT_KEY), a.result),
         meta := Some(a.meta.value - {ACTION_KEY} - {RESULT_KEY}))
    else a
  }

  function RestoreActor(a: AuditRow): AuditRow {
    if HasKey(a.meta, ADMIN_KEY) then
      a.(actorUserId := match a.meta.value[ADMIN_KEY] case Number(n) => Some(n) case Text(_) => None,
         meta := Some(a.meta.value - {ADMIN_KEY}))
    else a
  }

  /** Created by a local administrator, under the negative id. */
  predicate ByEncodedAdmin(r: ReportRow, admins: Admins) {
    r.createdBy.Some? && -r.createdBy.value in admins && r.createdBy.value < 0
    && AdminLabel(r.createdByLabel, admins[-r.createdBy.value])
  }

  predicate DecodesGrant(g: GrantRow, reports: seq<ReportRow>, admins: Admins) {
    exists r :: r in reports && ByEncodedAdmin(r, admins) && AutomaticGrant(g, r)
  }

  predicate SameGrantExceptSign(a: GrantRow, b: GrantRow) {
    a.reportId == b.reportId && a.subjectType == b.subjectType && a.subjectId == -b.subjectId
    && a.permission == b.permission
  }

  function DropRedundantGrants(grants: seq<GrantRow>, reports: seq<ReportRow>, admins: Admins): seq<GrantRow> {
    Delete(grants, (g: GrantRow) =>
      DecodesGrant(g, reports, admins) && exists h :: h in grants && SameGrantExceptSign(h, g))
  }

  function DecodeGrants(grants: seq<GrantRow>, reports: seq<ReportRow>, admins: Admins): seq<GrantRow> {
    Update(grants, (g: GrantRow) => if DecodesGrant(g, reports, admins) then g.(subjectId := -g.subjectId) else g)
  }

  function DecodeReport(r: ReportRow, admins: Admins): ReportRow {
    if ByEncodedAdmin(r, admins) then r.(createdBy := Some(-r.createdBy.value)) else r
  }

  function DecodeReports(reports: seq<ReportRow>, admins: Admins): seq<ReportRow> {
    Update(reports, (r: ReportRow) => DecodeReport(r, admins))
  }

  /** The unique constraint of report_permissions. */
  predicate UniqueGrants(grants: seq<GrantRow>) {
    forall i, j :: 0 <= i < j < |grants| ==> !SameGrant(grants[i], grants[j])
  }

  predicate SameGrant(a: GrantRow, b: GrantRow) {
    a.reportId == b.reportId && a.subjectType == b.subjectType && a.subjectId == b.subjectId
    && a.permission == b.permission
  }

  // ---------------------------------------------------------------- the programs

  datatype Tables = Tables(audit: seq<AuditRow>, reports: seq<ReportRow>, grants: seq<GrantRow>, nextId: int)

  function WithoutKey(a: AuditRow): AuditRow {
    a.(eventKey := None)
  }

  /** The existing audit rows after `upgrade`. */
  function UpgradedRows(audit: seq<AuditRow>, reports: seq<ReportRow>, admins: Admins): seq<AuditRow> {
    var added := Update(audit, WithoutKey);
    var detached := Update(added, (a: AuditRow) => DetachActor(a, admins));
    var normalized := Update(detached, NormalizePbix);
    var demoted := Update(normalized, (a: AuditRow) => Demote(a, IsDuplicate(a, normalized, reports)));
    Update(demoted, (a: AuditRow) => GiveKey(a, reports))
  }

  function Upgraded(t: Tables, admins: Admins): Tables {
    var reports := EncodeReports(t.reports, admins);
    var rows := UpgradedRows(t.audit, reports, admins);
    var inserted := Backfill(rows, reports, t.nextId);
    Tables(rows + inserted, reports, EncodeGrants(t.grants, t.reports, admins), t.nextId + |inserted|)
  }

  /** The `folder_roots` rows, as what they amount to. */
  ghost function CompaniesOf(folders: FolderTable): Companies {
    var parents := ParentMap(folders);
    map f | f in folders && folders[DiscoveryRoot(parents, f)].parent.None? ::
      (DiscoveryRoot(parents, f), folders[DiscoveryRoot(parents, f)].name)
  }

  /** The two UPDATE statements that fill the snapshot columns of the existing rows. */
  function RowSnapshots(rows: seq<AuditRow>, reports: seq<ReportRow>, d: Directory, companies: Companies)
    : (snapshots: seq<Snapshot>)
    ensures |snapshots| == |rows|
  {
    seq(|rows|, k requires 0 <= k < |rows| =>
      FillReportOf(FillActor(BLANK, Lookup(d.users, rows[k].actorUserId), d), rows[k], reports, companies))
  }

  /** The snapshot columns `upgrade` leaves behind, row by row. */
  ghost function UpgradedSnapshots(t: Tables, admins: Admins, d: Directory): seq<Snapshot> {
    var reports, companies := EncodeReports(t.reports, admins), CompaniesOf(d.folders);
    var rows := UpgradedRows(t.audit, reports, admins);
    RowSnapshots(rows, reports, d, companies) + BackfillSnapshots(rows, reports, d, companies)
  }

  function Downgraded(t: Tables, admins: Admins): Tables {
    var kept := Delete(t.audit, IsBackfilled);
    var audit := Update(Update(Update(kept, RestoreAction), RestoreActor), WithoutKey);
    var grants := DecodeGrants(DropRedundantGrants(t.grants, t.reports, admins), t.reports, admins);
    Tables(audit, DecodeReports(t.reports, admins), grants, t.nextId)
  }

  lemma RootIsCompany(folders: FolderTable, roots: map<int, int>, f: int)
    requires f in folders
    requires forall g, top :: SnapshotRoots.UnderTop(ParentMap(folders), top, g) <==> g in roots && roots[g] == top
    ensures var root := DiscoveryRoot(ParentMap(folders), f);
            root in folders && (f in roots <==> folders[root].parent.None?) && (f in roots ==> roots[f] == root)
  {
    hide DiscoveryRoot, SnapshotRoots.UnderTop, StatsRoot, AuditRoot;
    var parents := ParentMap(folders);
    StatsRootFromDiscoveryRoot(parents, f);
    SnapshotRoots.SnapshotIsStatsRoot(parents, roots, f);
    AuditRootIsDiscoveryRoot(parents, f);
  }

  lemma RootsAreCompanies(folders: FolderTable, roots: map<int, int>)
    requires forall g, top :: SnapshotRoots.UnderTop(ParentMap(folders), top, g) <==> g in roots && roots[g] == top
    ensures forall f :: f in roots ==> f in folders && roots[f] in folders
    ensures (map f | f in roots && f in folders && roots[f] in folders :: (roots[f], folders[roots[f]].name))
            == CompaniesOf(folders)
  {
    hide DiscoveryRoot, SnapshotRoots.UnderTop;
    forall f | f in roots ensures f in folders && roots[f] in folders {
      RootIsFolder(folders, roots, f);
    }
    forall f | f in folders
      ensures var root := DiscoveryRoot(ParentMap(folders), f);
              root in folders && (f in roots <==> folders[root].parent.None?) && (f in roots ==> roots[f] == root)
    {
      RootIsCompany(folders, roots, f);
    }
  }

  lemma RootIsFolder(folders: FolderTable, roots: map<int, int>, f: int)
    requires forall g, top :: SnapshotRoots.UnderTop(ParentMap(folders), top, g) <==> g in roots && roots[g] == top
    requires f in roots
    ensures f in folders && roots[f] in folders
  {
    hide SnapshotRoots.UnderTop;
    SnapshotRoots.OnlyFolders(ParentMap(folders), roots, f);
  }

  /** The `folder_roots` query gives `CompaniesOf`. */
  method LoadCompanies(folders: FolderTable) returns (companies: Companies)
    ensures companies == CompaniesOf(folders)
  {
    hide CompaniesOf, ParentMap, SnapshotRoots.UnderTop;
    var roots := SnapshotRoots.FolderRoots(ParentMap(folders));
    RootsAreCompanies(folders, roots);
    companies := map f | f in roots && f in folders && roots[f] in folders :: (roots[f], folders[roots[f]].name);
  }

  method FillSnapshots(rows: seq<AuditRow>, reports: seq<ReportRow>, d: Directory, companies: Companies)
    returns (snapshots: seq<Snapshot>)
    ensures snapshots == RowSnapshots(rows, reports, d, companies)
  {
    hide FillActor, FillReportOf;
    var actors := seq(|rows|, k requires 0 <= k < |rows| => FillActor(BLANK, Lookup(d.users, rows[k].actorUserId), d));
    snapshots := seq(|rows|, k requires 0 <= k < |rows| => FillReportOf(actors[k], rows[k], reports, companies));
  }

  class Ledger {
    var audit: seq<AuditRow>
    var reports: seq<ReportRow>
    var grants: seq<GrantRow>
    var nextId: int
    var snapshots: seq<Snapshot>   // the snapshot columns of `audit`, row by row
    const admins: Admins
    const directory: Directory

    constructor (t: Tables, admins: Admins, directory: Directory)
      ensures Rows() == t && this.admins == admins && this.directory == directory && snapshots == []
    {
      audit, reports, grants, nextId := t.audit, t.reports, t.grants, t.nextId;
      snapshots := [];
      this.admins, this.directory := admins, directory;
    }

    ghost function Rows(): Tables
      reads this
    {
      Tables(audit, reports, grants, nextId)
    }

    /**
     * `upgrade`, in one transaction: it fails, changing nothing, when an encoded grant meets one that already stands
     * under the same negative id.
     */
    method Upgrade() returns (ok: bool)
      modifies this
      ensures ok <==> UniqueGrants(EncodeGrants(old(grants), old(reports), admins))
      ensures Rows() == if ok then Upgraded(old(Rows()), admins) else old(Rows())
      ensures snapshots == if ok then UpgradedSnapshots(old(Rows()), admins, directory) else old(snapshots)
    {
      hide CompaniesOf, RowSnapshots, BackfillSnapshots;
      if !UniqueGrants(EncodeGrants(grants, reports, admins)) { return false; }
      ok := true;
      audit := Update(audit, WithoutKey);   // ADD COLUMN event_key
      grants := EncodeGrants(grants, reports, admins);
      reports := EncodeReports(reports, admins);
      var names := admins;
      audit := Update(audit, (a: AuditRow) => DetachActor(a, names));
      audit := Update(audit, NormalizePbix);
      var ranked, catalog := audit, reports;
      audit := Update(audit, (a: AuditRow) => Demote(a, IsDuplicate(a, ranked, catalog)));
      audit := Update(audit, (a: AuditRow) => GiveKey(a, catalog));
      var companies := LoadCompanies(directory.folders);
      snapshots := FillSnapshots(audit, reports, directory, companies);
      var inserted := Backfill(audit, reports, nextId);
      snapshots := snapshots + BackfillSnapshots(audit, reports, directory, companies);
      audit, nextId := audit + inserted, nextId + |inserted|;
    }

    /** `downgrade` */
    method Downgrade()
      modifies this
      ensures Rows() == Downgraded(old(Rows()), admins) && snapshots == []
    {
      snapshots := [];   // DROP COLUMN of the nine snapshot columns
      audit := Delete(audit, IsBackfilled);
      audit := Update(audit, RestoreAction);
      audit := Update(audit, RestoreActor);
      grants := DropRedundantGrants(grants, reports, admins);
      grants := DecodeGrants(grants, reports, admins);
      reports := DecodeReports(reports, admins);
      audit := Update(audit, WithoutKey);   // DROP COLUMN event_key
    }
  }
}
