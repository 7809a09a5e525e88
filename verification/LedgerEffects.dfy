/**
 What the audit-ledger migration does to each row, told from the tables before it alone: the texts are written
 out, and none of the statement functions is used on the telling side.
 */
module LedgerEffects {
  import opened FolderForest
  import opened FolderIndex
  import opened LedgerLaws
  import opened LedgerMigration
  import opened Options

  // ---------------------------------------------------------------- existing audit rows

  predicate Holds(meta: Meta, key: string, value: Json) {
    meta.Some? && key in meta.value && meta.value[key] == value
  }

  /** A PBIX upload or replacement that was logged as done when it was only enqueued. */
  predicate OnlyEnqueued(a: AuditRow) {
    a.result == "success" &&
    ((a.action == "report_create" && Holds(a.meta, "target", Text("pbix_upload"))) ||
     (a.action == "report_update" && Holds(a.meta, "target", Text("replace_pbix"))))
  }

  /** A successful creation of the report with this id. */
  predicate Creates(a: AuditRow, id: int) {
    a.action == "report_create" && a.result == "success" && a.resourceType == Some("report")
    && a.resourceId == Some(IdText(id)) && !OnlyEnqueued(a)
  }

  predicate CreatesAny(a: AuditRow, reports: seq<ReportRow>) {
    exists r :: r in reports && Creates(a, r.id)
  }

  predicate Before(b: AuditRow, a: AuditRow) {
    b.occurredAt < a.occurredAt || (b.occurredAt == a.occurredAt && b.id < a.id)
  }

  /** Another creation of the same report happened before. */
  predicate Repeated(t: Tables, k: nat)
    requires k < |t.audit|
  {
    var a := t.audit[k];
    CreatesAny(a, t.reports) &&
    exists b :: b in t.audit && CreatesAny(b, t.reports) && b.resourceId == a.resourceId && Before(b, a)
  }

  /** Logged under the id of a local administrator. */
  predicate ActedByAdmin(a: AuditRow, admins: Admins) {
    a.actorUserId.Some? && a.actorUserId.value in admins && a.actorLabel == Some(admins[a.actorUserId.value])
  }

  function WithActor(a: AuditRow, admins: Admins): Meta {
    if ActedByAdmin(a, admins) then
      Some(Object(a.meta)["_stats_migration_local_admin_id" := Number(a.actorUserId.value)])
    else a.meta
  }

  function WithOriginal(meta: Meta, action: string): Meta {
    Some(Object(meta)["_stats_migration_original_action" := Text(action)])
  }

  function WithResult(meta: Meta): Meta {
    Some(Object(meta)["_stats_migration_original_result" := Text("success")])
  }

  lemma ReportTextsKept(reports: seq<ReportRow>, admins: Admins, a: AuditRow)
    ensures CreatesReport(a, EncodeReports(reports, admins)) <==> CreatesReport(a, reports)
  {
    hide IdText;
    var encoded := EncodeReports(reports, admins);
    if r :| r in reports && CreatesResource(a, IdText(r.id)) {
      var k :| 0 <= k < |reports| && reports[k] == r;
      assert encoded[k] in encoded && encoded[k].id == r.id;
    }
    if r :| r in encoded && CreatesResource(a, IdText(r.id)) {
      var k :| 0 <= k < |encoded| && encoded[k] == r;
      assert reports[k] in reports && reports[k].id == r.id;
    }
  }

  lemma TextIs(meta: Meta, key: string, value: string)
    requires '-' !in value && value != "" && !('0' <= value[0] <= '9')
    ensures TextAt(meta, key) == Some(value) <==> Holds(meta, key, Text(value))
  {
    if HasKey(meta, key) && meta.value[key].Number? {
      NumbersAreNoWords(meta.value[key].n, value);
    }
  }

  lemma NumbersAreNoWords(n: int, value: string)
    requires '-' !in value && value != "" && !('0' <= value[0] <= '9')
    ensures IdText(n) != value
  {
    if n < 0 {
      assert IdText(n)[0] == '-';
    } else {
      FirstIsDigit(n);
    }
  }

  lemma {:induction false} FirstIsDigit(n: nat)
    ensures Digits(n) != "" && '0' <= Digits(n)[0] <= '9'
    decreases n
  {
    var last := "0123456789"[n % 10];
    assert '0' <= last <= '9';
    if n >= 10 { FirstIsDigit(n / 10); }
  }

  /** Ids as text are the decimal numerals, with a minus sign in front of negative ones. */
  lemma IdTextReads(n: int, digit: int)
    requires n > 0 && 0 <= digit < 10
    ensures IdText(digit) == [['0', '1', '2', '3', '4', '5', '6', '7', '8', '9'][digit]]
    ensures IdText(10 * n + digit) == IdText(n) + IdText(digit) && IdText(-n) == "-" + IdText(n)
  {
    var m := 10 * n + digit;
    assert m / 10 == n && m % 10 == digit;
    assert Digits(digit) == [] + ["0123456789"[digit]] == ["0123456789"[digit]];
    assert Digits(m) == Digits(n) + ["0123456789"[digit]];
  }

  /** A row once its actor is detached and an enqueued upload told apart. */
  lemma NormalizedIs(a: AuditRow, admins: Admins)
    ensures Normalized(a, admins) ==
            a.(eventKey := None,
               actorUserId := if ActedByAdmin(a, admins) then None else a.actorUserId,
               action := if OnlyEnqueued(a) then "report_update" else a.action,
               result := if OnlyEnqueued(a) then "accepted" else a.result,
               meta := if OnlyEnqueued(a)
                       then WithResult(WithOriginal(WithActor(a, admins), a.action))
                       else WithActor(a, admins))
  {
    var b := DetachActor(WithoutKey(a), admins);
    TextIs(b.meta, "target", "pbix_upload");
    TextIs(b.meta, "target", "replace_pbix");
    assert "target"[0] != "_stats_migration_local_admin_id"[0];
    assert Object(b.meta) == Object(WithActor(a, admins));
    assert Holds(b.meta, "target", Text("pbix_upload")) <==> Holds(a.meta, "target", Text("pbix_upload"));
    assert Holds(b.meta, "target", Text("replace_pbix")) <==> Holds(a.meta, "target", Text("replace_pbix"));
    assert OnlyEnqueued(a) <==> EnqueuedPbix(b);
  }

  lemma NormalizedCreates(a: AuditRow, admins: Admins, reports: seq<ReportRow>)
    ensures CreatesReport(Normalized(a, admins), EncodeReports(reports, admins)) <==> CreatesAny(a, reports)
  {
    hide IdText, EncodeReports;
    NormalizedIs(a, admins);
    ReportTextsKept(reports, admins, Normalized(a, admins));
    var b := Normalized(a, admins);
    assert b.resourceId == a.resourceId && b.resourceType == a.resourceType;
    forall r | r in reports ensures CreatesResource(b, IdText(r.id)) <==> Creates(a, r.id) {}
  }

  lemma DuplicateIsRepeated(t: Tables, admins: Admins, k: nat)
    requires k < |t.audit|
    ensures var normal, reports := NormalizedRows(t.audit, admins), EncodeReports(t.reports, admins);
            IsDuplicate(normal[k], normal, reports) <==> Repeated(t, k)
  {
    hide IdText, EncodeReports, CreatesReport, CreatesAny, Normalized;
    var normal, reports := NormalizedRows(t.audit, admins), EncodeReports(t.reports, admins);
    forall j | 0 <= j < |t.audit|
      ensures CreatesReport(normal[j], reports) <==> CreatesAny(t.audit[j], t.reports)
      ensures normal[j].resourceId == t.audit[j].resourceId && normal[j].occurredAt == t.audit[j].occurredAt
        && normal[j].id == t.audit[j].id
    {
      NormalizedCreates(t.audit[j], admins, t.reports);
      ColumnsKept(t.audit[j], admins);
    }
    if b :| b in normal && CreatesReport(b, reports) && b.resourceId == normal[k].resourceId && Earlier(b, normal[k]) {
      var j :| 0 <= j < |normal| && normal[j] == b;
      assert t.audit[j] in t.audit;
    }
    if Repeated(t, k) {
      var a := t.audit[k];
      var b :| b in t.audit && CreatesAny(b, t.reports) && b.resourceId == a.resourceId && Before(b, a);
      var j :| 0 <= j < |t.audit| && t.audit[j] == b;
      assert normal[j] in normal && Earlier(normal[j], normal[k]);
    }
  }

  /** The first creation of an existing report, which stays one. */
  predicate Canonical(t: Tables, k: nat)
    requires k < |t.audit|
  {
    CreatesAny(t.audit[k], t.reports) && !Repeated(t, k)
  }

  /**
   * The audit rows after `upgrade`, column by column, from the rows before it: what was only enqueued is an accepted
   * update; all but the first creation of a report are updates; the first one has the key; local administrators are no
   * longer the actor; what was replaced is kept in the meta object; nothing else changes.
   */
  lemma UpgradedRowIs(t: Tables, admins: Admins, k: nat)
    requires k < |t.audit|
    ensures k < |Upgraded(t, admins).audit|
    ensures var a := t.audit[k];
            var enqueued, repeated := OnlyEnqueued(a), Repeated(t, k);
            var kept := WithActor(a, admins);
            var meta := if enqueued || repeated then WithOriginal(kept, a.action) else kept;
            Upgraded(t, admins).audit[k] ==
            a.(actorUserId := if ActedByAdmin(a, admins) then None else a.actorUserId,
               action := if enqueued || repeated then "report_update" else a.action,
               result := if enqueued then "accepted" else a.result,
               eventKey := if Canonical(t, k) then Some("report-create:" + a.resourceId.value) else None,
               meta := if enqueued then WithResult(meta) else meta)
  {
    hide IdText, EncodeReports, Normalized, IsDuplicate, Repeated, UpgradedRows, Backfill, EncodeGrants, CreatesReport;
    var a, reports := t.audit[k], EncodeReports(t.reports, admins);
    var normal := NormalizedRows(t.audit, admins);
    UpgradedRowsAt(t.audit, reports, admins);
    NormalizedIs(a, admins);
    NormalizedCreates(a, admins, t.reports);
    DuplicateIsRepeated(t, admins, k);
    RepeatedCreates(t, k);
    var n := Normalized(a, admins);
    CreationColumns(Demote(n, Repeated(t, k)), reports);
    assert Upgraded(t, admins).audit[k] == UpgradedRow(n, Repeated(t, k), reports);
  }

  lemma RepeatedCreates(t: Tables, k: nat)
    requires k < |t.audit|
    ensures Repeated(t, k) ==> CreatesAny(t.audit[k], t.reports) && t.audit[k].action == "report_create"
    ensures CreatesAny(t.audit[k], t.reports) ==> t.audit[k].resourceId.Some? && !OnlyEnqueued(t.audit[k])
  {
    hide IdText;
  }

  // ---------------------------------------------------------------- inserted rows, reports, grants

  /** A report that its local administrator created, under the positive id. */
  predicate MadeByAdmin(r: ReportRow, admins: Admins) {
    r.createdBy.Some? && r.createdBy.value > 0 && r.createdBy.value in admins &&
    var name := admins[r.createdBy.value];
    r.createdByLabel == Some(name) || r.createdByLabel == Some(name + "(" + name + ")")
  }

  /** Exactly those reports are put under the negative id; nothing else of a report changes. */
  lemma UpgradedReportIs(t: Tables, admins: Admins, k: nat)
    requires k < |t.reports|
    ensures |Upgraded(t, admins).reports| == |t.reports|
    ensures var r := t.reports[k];
            Upgraded(t, admins).reports[k]
            == r.(createdBy := if MadeByAdmin(r, admins) then Some(-r.createdBy.value) else r.createdBy)
  {
    hide UpgradedRows, Backfill, EncodeGrants;
  }

  /** The grant its creator got with such a report, in the same transaction. */
  predicate CameWithReport(g: GrantRow, reports: seq<ReportRow>, admins: Admins) {
    g.subjectType == "user" && g.permission == "VIEW_STATS" &&
    exists r :: r in reports && MadeByAdmin(r, admins) && r.id == g.reportId && r.createdBy == Some(g.subjectId)
      && r.createdAt == g.createdAt
  }

  /** Exactly those grants are put under the negative id; nothing else of a grant changes. */
  lemma UpgradedGrantIs(t: Tables, admins: Admins, k: nat)
    requires k < |t.grants|
    ensures |Upgraded(t, admins).grants| == |t.grants|
    ensures var g := t.grants[k];
            Upgraded(t, admins).grants[k]
            == g.(subjectId := if CameWithReport(g, t.reports, admins) then -g.subjectId else g.subjectId)
  {
    hide UpgradedRows, Backfill, EncodeReports;
    var g := t.grants[k];
    forall r | r in t.reports
      ensures ByLocalAdmin(r, admins) && AutomaticGrant(g, r) <==>
              g.subjectType == "user" && g.permission == "VIEW_STATS" && MadeByAdmin(r, admins) && r.id == g.reportId
              && r.createdBy == Some(g.subjectId) && r.createdAt == g.createdAt
    {}
  }

  /** The unique key of the grants is made of all their columns but the time of creation. */
  lemma GrantKey(grants: seq<GrantRow>, g: GrantRow)
    ensures UniqueGrants([])
    ensures UniqueGrants(grants + [g]) <==>
            UniqueGrants(grants) && forall h :: h in grants ==> h.(createdAt := g.createdAt) != g
  {
    var all := grants + [g];
    forall k | 0 <= k < |grants| ensures all[k] == grants[k] && grants[k] in grants {}
    forall i, j | 0 <= i < j < |grants|
      ensures SameGrant(all[i], all[j]) == SameGrant(grants[i], grants[j])
    {}
    assert all[|grants|] == g;
    if UniqueGrants(all) {
      forall h | h in grants ensures h.(createdAt := g.createdAt) != g {
        var k :| 0 <= k < |grants| && grants[k] == h;
        assert !SameGrant(all[k], all[|grants|]);
      }
    }
  }

  /** One audit id is used up for every inserted row. */
  lemma IdsUsed(t: Tables, admins: Admins)
    ensures var after := Upgraded(t, admins); after.nextId - t.nextId == |after.audit| - |t.audit|
  {
    UpgradedRowsAt(t.audit, EncodeReports(t.reports, admins), admins);
  }

  /** No successful creation of the report is left to keep. */
  predicate Uncreated(t: Tables, r: ReportRow) {
    forall a :: a in t.audit ==> !Creates(a, r.id)
  }

  /** Each inserted row stands for a report that had none, and says what the report says. */
  lemma InsertedRowIs(t: Tables, admins: Admins, k: nat) returns (i: nat)
    requires |t.audit| <= k < |Upgraded(t, admins).audit|
    ensures i < |t.reports| && Uncreated(t, t.reports[i])
    ensures var r := t.reports[i];
            Upgraded(t, admins).audit[k] == AuditRow(
              t.nextId + (k - |t.audit|),
              if r.createdBy.Some? && r.createdBy.value > 0 && !MadeByAdmin(r, admins) then r.createdBy else None,
              if r.createdByLabel.Some? then r.createdByLabel else r.authorLabel,
              "report_create", "success", Some("report"), Some(IdText(r.id)), Some("report-create:" + IdText(r.id)),
              r.createdAt, Some(map["report_id" := Number(r.id), "target" := Text("migration_backfill")]))
  {
    hide IdText, UpgradedRows, EncodeGrants, NeedsSynthetic;
    var reports := EncodeReports(t.reports, admins);
    var rows := UpgradedRows(t.audit, reports, admins);
    UpgradedRowsAt(t.audit, reports, admins);
    i := BackfillFrom(rows, reports, t.nextId, k - |t.audit|);
    NeedsIffUncreated(t, admins, i);
  }

  lemma NeedsIffUncreated(t: Tables, admins: Admins, i: nat)
    requires i < |t.reports|
    ensures |EncodeReports(t.reports, admins)| == |t.reports|
    ensures var reports := EncodeReports(t.reports, admins);
            NeedsSynthetic(reports[i], UpgradedRows(t.audit, reports, admins)) <==> Uncreated(t, t.reports[i])
  {
    hide IdText, UpgradedRows, NeedsSynthetic, Normalized;
    var reports, normal := EncodeReports(t.reports, admins), NormalizedRows(t.audit, admins);
    var r := reports[i];
    assert r in reports && r.id == t.reports[i].id;
    SyntheticExactlyWhereNone(t.audit, reports, admins, r);
    forall j | 0 <= j < |t.audit| ensures CreatesResource(normal[j], IdText(r.id)) <==> Creates(t.audit[j], r.id) {
      NormalizedIs(t.audit[j], admins);
    }
    if Uncreated(t, t.reports[i]) {
      forall a | a in normal ensures !CreatesResource(a, IdText(r.id)) {
        var j :| 0 <= j < |normal| && normal[j] == a;
        assert t.audit[j] in t.audit;
      }
    }
    if forall a :: a in normal ==> !CreatesResource(a, IdText(r.id)) {
      forall a | a in t.audit ensures !Creates(a, r.id) {
        var j :| 0 <= j < |t.audit| && t.audit[j] == a;
        assert normal[j] in normal;
      }
    }
  }

  // ---------------------------------------------------------------- snapshots

  /** The actor columns of every row are those of the user who acted, if there is one. */
  lemma ActorColumns(a: AuditRow, reports: seq<ReportRow>, d: Directory)
    ensures var s, known := SnapshotOf(a, reports, d), a.actorUserId.Some? && a.actorUserId.value in d.users;
            s.actorName == (if known then d.users[a.actorUserId.value].name else None) &&
            s.actorEmpNo == (if known then d.users[a.actorUserId.value].externalId else None) &&
            s.departmentId == (if known then d.users[a.actorUserId.value].departmentId else None) &&
            s.departmentName == if s.departmentId.Some? && s.departmentId.value in d.departments
                                then Some(d.departments[s.departmentId.value]) else None
  {
    hide IdText, CompaniesOf;
  }

  /** The report columns of a row about an existing report are those of the report. */
  lemma ReportColumns(a: AuditRow, reports: seq<ReportRow>, d: Directory, r: ReportRow)
    requires r in reports && forall i, j :: 0 <= i < j < |reports| ==> reports[i].id != reports[j].id
    requires a.resourceType == Some("report") && a.resourceId == Some(IdText(r.id))
    ensures var s, shown := SnapshotOf(a, reports, d), r.listing;
            s.reportName == (if shown.displayName.Some? then shown.displayName
                             else if shown.reportName.Some? then shown.reportName else Some(shown.reportId)) &&
            s.ownerUserId == (if r.createdBy.Some? && r.createdBy.value > 0 then r.createdBy else None) &&
            s.ownerLabel == (if r.createdByLabel.Some? then r.createdByLabel else r.authorLabel) &&
            s.companyName == if s.companyId.Some? && s.companyId.value in d.folders
                             then Some(d.folders[s.companyId.value].name) else None
  {
    hide IdText, DiscoveryRoot, FillActor;
    var found := ReportOf(a, reports);
    assert found.Some?;
    IdTextInjective(found.value.id, r.id);
    assert found.value == r;
    var parents, folder := ParentMap(d.folders), r.listing.folder;
    if folder.Some? && folder.value in d.folders { StatsRootFromDiscoveryRoot(parents, folder.value); }
  }

  /** All other rows have none. */
  lemma NoReportColumns(a: AuditRow, reports: seq<ReportRow>, d: Directory)
    requires a.resourceType != Some("report") || forall r :: r in reports ==> a.resourceId != Some(IdText(r.id))
    ensures var s := SnapshotOf(a, reports, d);
            s.reportName == s.companyName == s.ownerLabel == None && s.companyId == s.ownerUserId == None
  {
    hide IdText, CompaniesOf;
  }

  // ---------------------------------------------------------------- downgrade

  /** What `meta ->> key` says, or else the given text. */
  function TextOr(meta: Meta, key: string, otherwise: string): string {
    if meta.None? || key !in meta.value then otherwise
    else match meta.value[key] case Text(s) => s case Number(n) => IdText(n)
  }

  /** A row put back: action, result and actor from the meta object, which loses the three reserved keys. */
  function PutBack(a: AuditRow): AuditRow {
    var actor := "_stats_migration_local_admin_id";
    a.(action := TextOr(a.meta, "_stats_migration_original_action", a.action),
       result := TextOr(a.meta, "_stats_migration_original_result", a.result),
       actorUserId := if a.meta.None? || actor !in a.meta.value then a.actorUserId
                      else match a.meta.value[actor] case Number(n) => Some(n) case Text(_) => None,
       meta := if a.meta.None? then None
               else Some(a.meta.value - {actor, "_stats_migration_original_action",
                                         "_stats_migration_original_result"}),
       eventKey := None)
  }

  /** Inserted by the upgrade. */
  predicate Inserted(a: AuditRow) {
    a.eventKey.Some? && "report-create:" <= a.eventKey.value && Holds(a.meta, "target", Text("migration_backfill"))
  }

  lemma PutBackIs(a: AuditRow)
    ensures WithoutKey(RestoreActor(RestoreAction(a))) == PutBack(a)
  {
    hide IdText;
    if a.meta.Some? {
      var m, all := a.meta.value, {ADMIN_KEY, ACTION_KEY, RESULT_KEY};
      assert |ADMIN_KEY| != |ACTION_KEY| && |ADMIN_KEY| != |RESULT_KEY|;
      assert m - {ACTION_KEY} - {RESULT_KEY} - {ADMIN_KEY} == m - all;
      assert ADMIN_KEY !in m ==> m - {ACTION_KEY} - {RESULT_KEY} == m - all;
      assert ACTION_KEY !in m && RESULT_KEY !in m ==> m - {ADMIN_KEY} == m - all;
      assert ACTION_KEY !in m && RESULT_KEY !in m && ADMIN_KEY !in m ==> m == m - all;
    }
  }

  lemma {:induction false} DeleteSame<T>(rows: seq<T>, p: T -> bool, q: T -> bool)
    requires forall k :: 0 <= k < |rows| ==> p(rows[k]) == q(rows[k])
    ensures Delete(rows, p) == Delete(rows, q)
    decreases |rows|
  {
    if rows != [] { DeleteSame(rows[..|rows| - 1], p, q); }
  }

  /** `downgrade` deletes the inserted rows and puts every other one back, whatever has been logged since. */
  lemma DowngradedAuditIs(t: Tables, admins: Admins)
    ensures Downgraded(t, admins).audit == Update(Delete(t.audit, (a: AuditRow) => Inserted(a)), PutBack)
  {
    hide IdText, DecodeGrants, DropRedundantGrants, DecodeReports, RestoreAction, RestoreActor, WithoutKey, PutBack,
      Delete;
    forall k | 0 <= k < |t.audit| ensures IsBackfilled(t.audit[k]) == Inserted(t.audit[k]) {
      TextIs(t.audit[k].meta, "target", "migration_backfill");
    }
    DeleteSame(t.audit, IsBackfilled, (a: AuditRow) => Inserted(a));
    var kept := Delete(t.audit, IsBackfilled);
    forall k | 0 <= k < |kept| ensures WithoutKey(RestoreActor(RestoreAction(kept[k]))) == PutBack(kept[k]) {
      PutBackIs(kept[k]);
    }
  }

  /** A report that stands under a local administrator's negative id. */
  predicate UnderNegativeId(r: ReportRow, admins: Admins) {
    r.createdBy.Some? && r.createdBy.value < 0 && -r.createdBy.value in admins &&
    var name := admins[-r.createdBy.value];
    r.createdByLabel == Some(name) || r.createdByLabel == Some(name + "(" + name + ")")
  }

  lemma DowngradedReportIs(t: Tables, admins: Admins, k: nat)
    requires k < |t.reports|
    ensures |Downgraded(t, admins).reports| == |t.reports|
    ensures var r := t.reports[k];
            Downgraded(t, admins).reports[k]
            == r.(createdBy := if UnderNegativeId(r, admins) then Some(-r.createdBy.value) else r.createdBy)
  {
    hide Delete, DecodeGrants, DropRedundantGrants;
  }

  predicate CameWithNegativeId(g: GrantRow, reports: seq<ReportRow>, admins: Admins) {
    g.subjectType == "user" && g.permission == "VIEW_STATS" &&
    exists r :: r in reports && UnderNegativeId(r, admins) && r.id == g.reportId && r.createdBy == Some(g.subjectId)
      && r.createdAt == g.createdAt
  }

  /** The same grant under the opposite id, whenever it was made. */
  predicate HasPositiveTwin(g: GrantRow, grants: seq<GrantRow>) {
    exists h :: h in grants && h == GrantRow(g.reportId, g.subjectType, -g.subjectId, g.permission, h.createdAt)
  }

  /** Such a grant is dropped if its positive twin stands already, and else moved to the positive id. */
  lemma DowngradedGrantsAre(t: Tables, admins: Admins)
    ensures var dropped := (g: GrantRow) => CameWithNegativeId(g, t.reports, admins) && HasPositiveTwin(g, t.grants);
            var moved := (g: GrantRow) =>
              g.(subjectId := if CameWithNegativeId(g, t.reports, admins) then -g.subjectId else g.subjectId);
            Downgraded(t, admins).grants == Update(Delete(t.grants, dropped), moved)
  {
    hide Delete, DecodeReports, ByEncodedAdmin, AutomaticGrant;
    forall g ensures DecodesGrant(g, t.reports, admins) <==> CameWithNegativeId(g, t.reports, admins) {
      forall r ensures ByEncodedAdmin(r, admins) && AutomaticGrant(g, r) <==>
                  g.subjectType == "user" && g.permission == "VIEW_STATS" && UnderNegativeId(r, admins)
                  && r.id == g.reportId && r.createdBy == Some(g.subjectId) && r.createdAt == g.createdAt
      {
        NegativeIdCases(g, r, admins);
      }
    }
    var redundant := (g: GrantRow) =>
      DecodesGrant(g, t.reports, admins) && exists h :: h in t.grants && SameGrantExceptSign(h, g);
    DeleteSame(t.grants, redundant, (g: GrantRow) =>
      CameWithNegativeId(g, t.reports, admins) && HasPositiveTwin(g, t.grants));
  }

  lemma NegativeIdCases(g: GrantRow, r: ReportRow, admins: Admins)
    ensures ByEncodedAdmin(r, admins) && AutomaticGrant(g, r) <==>
            g.subjectType == "user" && g.permission == "VIEW_STATS" && UnderNegativeId(r, admins)
            && r.id == g.reportId && r.createdBy == Some(g.subjectId) && r.createdAt == g.createdAt
  {}
}
