# BI portal: verified models of its algorithms and protocols

The portal is a Power BI front end: a FastAPI/Celery backend over PostgreSQL and Redis, and a React
frontend. Most of it moves rows and renders pages. This project models the parts that carry an algorithm,
a data transformation or a protocol, each in the form its source has (loops, mutable sessions, ordered SQL
statements, event handlers), and proves what those parts are for.

| file | models |
|---|---|
| `HangulKeyboard.dfy`, `HangulLaws.dfy`, `LowerCase.dfy` | the two-set Hangul keyboard converter and the search terms built from it |
| `TeamNames.dfy`, `TeamGroupSync.dfy`, `TeamGroupLaws.dfy` | the organisation-chart group synchroniser |
| `FolderForest.dfy`, `FolderIndex.dfy`, `CompanyReports.dfy`, `SnapshotRoots.dfy` | the folder walks of discovery, statistics, audit and the ledger migration |
| `LedgerMigration.dfy`, `LedgerLaws.dfy`, `LedgerEffects.dfy` | the audit-ledger migration and its downgrade |
| `ScopeMigration.dfy` | report access, and the migration of folder scopes into grants |
| `NextScheduled.dfy` | the next scheduled refresh |
| `Csv.dfy` | the CSV export, and a reader for section 2 of RFC 4180 |
| `OpsAlerts.dfy`, `EmbedTokens.dfy`, `VisibleTime.dfy`, `RefreshDock.dfy` | four protocols as step systems |
| `ActivityStats.dfy` | the grouped counts of the statistics service |
| `Options.dfy`, `Texts.dfy` | the optional value and the text joining the models share |

A method that follows a loop or a mutable object is proved equal to a function, and the laws are lemmas about
that function. Each such function and table is tied down on its own as well, by laws that do not use it:
against literals and published standards, against the columns of the rows before, or against the history of
the steps alone. External inputs are parameters: `str.strip`, the character tables of lower-casing and `int()`
of the host language, the clock, which mails and store calls succeed, the order of query rows, what
`get_or_register` can find (`directory`).

Where the code and its own text differ, the code is modelled and the difference is a theorem:

- csv.ts says a split of the export at CRLF gives 1 + rows pieces. That holds exactly when no cell contains
  a CRLF (`Csv.DocumentedLineCountIff`, counterexample `Csv.DocumentedLineCountCanFail`).
- stats_service.py and report_discovery_service.py both speak of the topmost folder. They name the same one
  exactly when some folder above has no parent or is its own parent (`FolderForest.RootsAgreeIff`,
  counterexamples `FolderForest.RootsCanDiffer`, of which the schema's foreign key leaves only the cycle).
- team_group_sync.py calls its last candidate a final fallback. It can be held by another group as well, and
  group names are unique in the schema, so an applied sync then raises and is rolled back. It goes through
  exactly when no team finds all its candidates held by other groups (`TeamGroupSync.Session.SyncTeamGroups`,
  by `TeamNames.NamesStayDistinct`; failing input `TeamNames.NamesCanCollide`); a check on the loaded rows that
  rules the failure out is `TeamNames.ReservedFallbacksSuffice`, and after one sync that went through no later
  one with the same organisation fails (`TeamGroupLaws.LaterSyncsGoThrough`).
- The ledger downgrade is written to restore the original rows. It does so exactly when no reserved meta
  key, no canonical creation marked `migration_backfill`, and no negative administrator id existed before
  (`LedgerLaws.AuditRestoredIff`, `LedgerLaws.ReportsRestoredIff`, `LedgerLaws.GrantsRestoredIff`;
  counterexamples `LedgerLaws.ReservedKeyIsLost`, `LedgerLaws.MarkedCreationIsDeleted`,
  `LedgerLaws.NegativeIdIsLost`).
- ops_alert_service.py promises a recovery notice once a component is back to normal. A component that still
  has its fault is announced as recovered exactly when it sits behind Redis, the status reports Redis as not
  ok, and yet its alert key can be read, is live, and the mail goes out (`OpsAlerts.FalseRecoveryIff`, over
  runs `OpsAlerts.FalseRecoveryInRun`, an example run `OpsAlerts.RedisOutageLooksLikeRecovery`). With a store
  that really is down no recovery notice goes out (`OpsAlerts.UnreadableStore`). And a recovery goes unannounced
  once the resend window of its alert has run out (`OpsAlerts.RecoveryIff`, an example run
  `OpsAlerts.RecoveryCanBeMissed`).
- hangulKeyboard.ts says that Hangul typed with the input method off is found, and real Latin values too. That
  holds for every query without a capital sigma (`HangulLaws.SearchMatchesWithoutSigma`), the one letter whose
  lower case depends on its neighbours; the query `ΑΣ` misses the record `ΑΣΒ` (`HangulLaws.SigmaSearchMisses`).

Two further properties hold under a condition the code does not check:

- The figures of one row of the report table come from two queries and are keyed by `int(resource_id)`. They
  fit together if the report's activity is all under one text (`ActivityStats.ReportRowsConsistent`). The writers
  of views and downloads log `str(id)`, whatever other actions log, and so ensure it
  (`ActivityStats.WrittenReportsConsistent`); under "7" and "07" it can fail (`ActivityStats.TwoTextsMislead`).
- A CSV reader takes a closing line break as no record, so an export whose last row were a single empty cell
  would lose it (`Csv.ParseInvertsExport`); the eleven columns of the export never do (`Csv.ExportReadsBack`).

## Model

| member | source | states |
|---|---|---|
| HangulKeyboard.EnglishKeyboardToHangul | backend/app/core/hangul_keyboard.py:59-132 | The loop over three string slots computes `Convert`; its slots only ever take the four shapes of `Pending`. |
| HangulKeyboard.PressVowel | backend/app/core/hangul_keyboard.py:87-112 | The vowel branch, with final splitting and migration, does one move of the pending state. |
| HangulKeyboard.PressConsonant | backend/app/core/hangul_keyboard.py:114-129 | The consonant branch, with compound finals, does one move of the pending state. |
| HangulLaws.SyllableRange | backend/app/core/hangul_keyboard.py:46 | The composed syllables are exactly the characters from 가 to 힣, the code points U+AC00 to U+D7A3. |
| HangulLaws.KeyboardRows | backend/app/core/hangul_keyboard.py:12-19 | Every key gives the jamo printed on it, row by row of the two-set layout, shifted keys included. |
| HangulLaws.OnlyTheseAreKeys | backend/app/core/hangul_keyboard.py:12-19 | A character is a key if and only if it is a small Latin letter or one of Q, W, E, R, T, O, P. |
| HangulLaws.ComposesInitials | backend/app/core/hangul_keyboard.py:49-56 | Each of the 19 initials composes to its own syllable, 가 to 하. |
| HangulLaws.ComposesMedials | backend/app/core/hangul_keyboard.py:49-56 | Each of the 21 medials composes to its own syllable, 아 to 이. |
| HangulLaws.ComposesFinals | backend/app/core/hangul_keyboard.py:49-56 | Each of the 27 finals composes to its own syllable, 각 to 갛. |
| HangulLaws.CompoundJamo | backend/app/core/hangul_keyboard.py:28-38 | The seven compound medials and eleven compound finals, pair by pair. |
| HangulLaws.SourceExample | frontend/src/utils/hangulKeyboard.ts:1-5 | `tjgmldus` is converted to `서희연`, the example of the source. |
| HangulLaws.ComposeInverts | backend/app/core/hangul_keyboard.py:49-56 | Composition falls back to raw jamo if and only if the final is ㄸ, ㅃ or ㅉ; otherwise it gives one syllable that decomposes into the same jamo. |
| HangulLaws.PendingOfInverts | backend/app/core/hangul_keyboard.py:19-26 | Every one of the 11172 syllables is the composition of its own decomposition. |
| HangulLaws.StepProper | backend/app/core/hangul_keyboard.py:80-129 | Every reachable state holds a real initial, a real medial, and a final that is legal or one of the three tense consonants. |
| HangulLaws.ConvertMistyped | backend/app/core/hangul_keyboard.py:59-132 | Typing any text of syllables and non-key characters with the input method off, then converting, gives the text back. |
| HangulLaws.ConvertKeepsKeys | backend/app/core/hangul_keyboard.py:59-132 | For every text, the output spelled as keys is the input spelled as keys with ㅇ inserted before exactly the vowel keys that follow no consonant key and do not combine with the vowel key before them. |
| HangulLaws.KeystrokesKept | backend/app/core/hangul_keyboard.py:59-132 | For a text of keys alone, spelling the output gives the very keys typed, in order, with ㅇ only where it was due. |
| HangulLaws.ConvertTwice | backend/app/core/hangul_keyboard.py:62-63 | The output contains no key character, so converting twice equals converting once. |
| HangulLaws.ConvertAcross | backend/app/core/hangul_keyboard.py:80-85 | Conversion distributes over concatenation at every character that is not a key. |
| HangulLaws.ConvertLength | backend/app/core/hangul_keyboard.py:59-132 | The output is at most one and a half times as long as the input, and `kE` reaches the bound. |
| HangulLaws.ExpandFindsMistyped | backend/app/core/hangul_keyboard.py:135-148 | The backend's terms start with what was typed and contain the text that was meant, without duplicates. |
| HangulLaws.ExpandsTo | backend/app/core/hangul_keyboard.py:135-148 | For every query the terms are exactly the query without the white space around it, first, and what that converts to, each once; none for a blank or absent query. |
| HangulLaws.MistypedSearchMatches | frontend/src/utils/hangulKeyboard.ts:147-169 | A record whose value contains a text matches the terms built from that text's mistyped keys, if no capital sigma of the text is final on its own and not inside the value, or the other way round. |
| HangulLaws.SearchMatches | frontend/src/utils/hangulKeyboard.ts:147-169 | Under the same condition a record whose value contains a query, Latin, Hangul or mixed, matches the terms built from the query itself. |
| HangulLaws.SearchMatchesWithoutSigma | frontend/src/utils/hangulKeyboard.ts:147-169 | Every trimmed query without a capital sigma finds every record that contains it, and, if it has no key letters, also when typed with the input method off. |
| HangulLaws.SearchFinds | frontend/src/utils/hangulKeyboard.ts:147-169 | For every input: a record is found if and only if the input is blank, or one of its values contains, in lower case, the input without the white space around it or what that converts to. |
| HangulLaws.SigmaSearchMisses | frontend/src/utils/hangulKeyboard.ts:147-169 | With one it can miss: `ΑΣ` does not find the record `ΑΣΒ`. |
| LowerCase.LowerFindsPartIff | frontend/src/utils/hangulKeyboard.ts:151-167 | The lower-cased value holds the lower-cased part in the part's own place if and only if no sigma of the part changes between final and not. |
| LowerCase.NearestBefore | frontend/src/utils/hangulKeyboard.ts:151-167 | The letter before a sigma is the nearest character that is not case-ignorable, found one character at a time. |
| LowerCase.NearestAfter | frontend/src/utils/hangulKeyboard.ts:151-167 | So is the letter after it. |
| TeamNames.NameCandidates | backend/app/services/team_group_sync.py:68-83 | The appended, deduplicated candidates are `Candidates`. |
| TeamNames.NamesByRows | backend/app/services/team_group_sync.py:68-75 | Which rows the three names come from: own name or else the id, the named parent row, the company row. |
| TeamNames.NestedCandidates | backend/app/services/team_group_sync.py:68-83 | A team Dev below Platform of Acme: `Dev`, `Platform · Dev`, `Acme · Platform · Dev`, `Dev (D1)`. |
| TeamNames.TopCandidates | backend/app/services/team_group_sync.py:75-83 | Directly below the row of its company the company is named once: `HR`, `Acme · HR`, `HR (D2)`. |
| TeamNames.UnlistedCandidates | backend/app/services/team_group_sync.py:70-83 | A team without a department row goes by its id: `D9`, `D9 (D9)`. |
| TeamNames.OwnIsLast | backend/app/services/team_group_sync.py:94 | A team owns the last group of its department, and none only if there is none or the id is empty. |
| TeamNames.CandidatesGrowInFront | backend/app/services/team_group_sync.py:75-82 | Before the last resort each further candidate differs from the earlier ones and ends in them. |
| TeamNames.ChosenByLevel | backend/app/services/team_group_sync.py:129-131 | The name a team ends with, over the deduplicated candidates: plain if free, else with a parent department that is not the company, else with the company in front, else with the id whether free or not. |
| TeamNames.CandidatesEndInFallback | backend/app/services/team_group_sync.py:82-83 | The name with the department id is always a candidate, and candidates are pairwise distinct. |
| TeamNames.NamingFrame | backend/app/services/team_group_sync.py:158-170 | A pass renames only the teams' own groups; ids and sources never change, and new rows carry fresh ids and the team's department. |
| TeamNames.NamingStepDistinct | backend/app/services/team_group_sync.py:127-132 | One iteration keeps all group names distinct if and only if some candidate is free, and the set of taken names stays exact. |
| TeamNames.NamesStayDistinct | backend/app/services/team_group_sync.py:123-170 | The names chosen are distinct after every iteration if and only if no team meets all its candidates taken. |
| TeamNames.NamesCanCollide | backend/app/services/team_group_sync.py:129-167 | Manual groups `Dev` and `Dev (D1)` leave team D1 no free name: its row would repeat one, against the unique key. |
| TeamNames.ReservedFallbacksSuffice | backend/app/services/team_group_sync.py:123-170 | No team is crowded if, on the rows loaded, no foreign group holds a team's last-resort name and no other team has it among its candidates. |
| TeamNames.SyncSettles | backend/app/services/team_group_sync.py:123-170 | The rows of a pass, which an applied sync reaches if it goes through, give every team a group named by one of its candidates. |
| TeamNames.ResyncOnlyImproves | backend/app/services/team_group_sync.py:127-132 | A repeated pass creates nothing, and every rename strictly lowers the name's position among the team's candidates. |
| TeamNames.RenamesAreBounded | backend/app/services/team_group_sync.py:119-170 | All renames of any number of further syncs together are at most the sum of (candidates - 1), in whatever order each sync serves teams of the same name. |
| TeamNames.SyncsConverge | backend/app/services/team_group_sync.py:119-170 | Repeated syncs, each in an order of its own, reach within that bound rows that no further sync changes in any order. |
| TeamNames.IdleOnceIsStable | backend/app/services/team_group_sync.py:119-170 | Rows that one sync leaves alone are left alone by every sync of the same teams, in whatever order. |
| TeamNames.NoLaterSyncFails | backend/app/services/team_group_sync.py:127-170 | From settled rows with distinct names, after any further syncs, the rows are settled and distinct and no team is crowded in any order. |
| TeamGroupSync.Session.GetOrRegister | backend/app/services/user_admin.py:44-49 | Returns the user with that employee number, registering them if the directory can, or nothing. |
| TeamGroupSync.Session.AddMembers | backend/app/services/team_group_sync.py:171-176 | The registration loop adds exactly the registrable employees, as users and as members. |
| TeamGroupSync.Session.ApplyTeam | backend/app/services/team_group_sync.py:158-184 | Creates or renames the group, then adds and removes members, no other row changing; fails without a change if and only if the row would repeat another group's name. |
| TeamGroupSync.Session.SyncTeam | backend/app/services/team_group_sync.py:123-184 | One iteration takes the tables reached after k teams to those after k + 1; applied, it fails if and only if the team is crowded. |
| TeamGroupSync.Session.SyncTeamGroups | backend/app/services/team_group_sync.py:86-195 | An applied sync goes through if and only if no team is crowded, and then leaves the tables `Synced` describes; one that fails, and a preview, leave every row alone; the plan is `Entry` for each team, and the totals are the numbers of groups it creates, of pairs of team and employee it adds and removes, and of employees not yet registered. |
| TeamGroupSync.Session.PreviewThenApply | backend/app/services/team_group_sync.py:86-195 | A sync that goes through after a preview returns the same plan and the same totals, apart from the ids of created groups. |
| TeamGroupLaws.TeamGroupsDiffer | backend/app/services/team_group_sync.py:94 | Different teams never share a group. |
| TeamGroupLaws.TeamHoldsRoster | backend/app/services/team_group_sync.py:134-184 | After apply each team's group holds exactly its roster minus the employees nobody can register. |
| TeamGroupLaws.OtherGroupsUnchanged | backend/app/services/team_group_sync.py:3-5 | Manual groups and groups outside the synchronised subtree keep their row and their members. |
| TeamGroupLaws.PlanAccounts | backend/app/services/team_group_sync.py:134-138 | keep + add is the size of the roster, keep + remove the number of old members. |
| TeamGroupLaws.EntryReports | backend/app/services/team_group_sync.py:140-151 | A plan entry gives the id of the group the team has, and its name if and only if that is given up; it announces a creation if and only if there is no group. |
| TeamGroupLaws.EntryCompares | backend/app/services/team_group_sync.py:134-138 | An entry adds exactly the employees of the roster who are not members, and removes exactly the members who are not on it. |
| TeamGroupLaws.EntryIsWritten | backend/app/services/team_group_sync.py:158-170 | An applied sync leaves each team a group with the id, the name and the department its entry says. |
| TeamGroupLaws.NothingInsertedTwice | backend/app/services/team_group_sync.py:172-176 | No membership row is inserted that is already there. |
| TeamGroupLaws.SecondSyncIsQuiet | backend/app/services/team_group_sync.py:86-184 | An immediate second sync creates no group, removes nobody and would add only the unregistrable employees. |
| TeamGroupLaws.OnlyUnregistrableLeft | backend/app/services/team_group_sync.py:109-194 | After an applied sync exactly the employees nobody can register remain to be registered. |
| TeamGroupLaws.FirstSyncSettles | backend/app/services/team_group_sync.py:123-170 | The convergence laws apply from the first applied sync of the session on; if it went through, names are distinct. |
| TeamGroupLaws.LaterSyncsGoThrough | backend/app/services/team_group_sync.py:127-170 | Once a sync has gone through, every later one with the same organisation does, after any number in between and in any order. |
| TeamGroupLaws.SyncKeepsSound | backend/app/services/team_group_sync.py:86-184 | A sync that goes through keeps unique ids and names, references and the one id per employee that the next sync takes for granted. |
| TeamGroupLaws.LaterSyncIsResync | backend/app/services/team_group_sync.py:123-170 | Later applied syncs change the group rows exactly as the convergence laws assume. |
| TeamGroupLaws.FirstSyncExample | backend/app/services/team_group_sync.py:86-195 | A manual group holds the team's name and one of its three employees, and one employee cannot be registered: the complete tables before and after, and the plan. |
| FolderForest.ChainIsExactlyAbove | backend/app/services/report_discovery_service.py:56-62 | The chain walk visits exactly the folders reachable by parent pointers, cyclic and dangling pointers included. |
| FolderForest.RootFolderId | backend/app/services/stats_service.py:93-102 | The loop terminates on every parent map and returns the statistics root. |
| FolderForest.SnapshotRoot | backend/app/services/audit_service.py:78-86 | The loop terminates on every parent map and returns the audit root. |
| FolderForest.AuditRootIsDiscoveryRoot | backend/app/services/audit_service.py:78-86 | The audit root is the discovery root on every parent map. |
| FolderForest.StatsRootFromDiscoveryRoot | backend/app/services/stats_service.py:93-102 | The statistics root is the discovery root, or the id its parent pointer names. |
| FolderForest.RootsAgreeIff | backend/app/services/stats_service.py:93-102 | Statistics and discovery roots coincide if and only if some folder above, or the folder itself, has no parent or is its own. |
| FolderForest.RootsCanDiffer | backend/app/services/stats_service.py:93-102 | They differ on a two-folder cycle, and would on a dangling parent, which the foreign key excludes. |
| FolderForest.TopLevelSelectsTheSame | backend/app/services/stats_service.py:115-119 | For a top-level folder, being underneath it and having it as discovery, statistics or audit root are the same, whatever the rest of the map looks like. |
| FolderForest.ForestRoots | backend/app/services/stats_service.py:93-102 | On an acyclic, closed forest all three roots coincide and are top-level. |
| FolderForest.OlderParentsMakeForest | backend/app/services/stats_service.py:93-102 | Folders whose parents are known and came before them are such a forest. |
| FolderIndex.Resolve | backend/app/services/report_discovery_service.py:52-68 | The memoised walk fills paths and roots with what a fresh walk gives. |
| FolderIndex.IndexChildren | backend/app/services/report_discovery_service.py:44-47 | The child lists hold each folder's direct children in display order. |
| FolderIndex.Descendants | backend/app/services/report_discovery_service.py:75-83 | The stack search terminates on cycles and returns exactly the folders that have the start on their parent chain. |
| FolderIndex.LoadFolderContext | backend/app/services/report_discovery_service.py:39-85 | The index holds every folder's breadcrumb, root and exact subtree. |
| FolderIndex.PathExtendsParent | backend/app/services/report_discovery_service.py:63-64 | A folder's breadcrumb is its parent's followed by its own name, off cycles. |
| FolderIndex.PathIsBreadcrumb | backend/app/services/report_discovery_service.py:52-68 | Every breadcrumb is the parent's, ` / ` and the own name, or the own name alone where the parent is none, unknown or was passed already. |
| FolderIndex.TopPathIsName | backend/app/services/report_discovery_service.py:64 | A folder without a parent, with an unknown one, or that is its own has its own name as its breadcrumb. |
| FolderIndex.CyclePath | backend/app/services/report_discovery_service.py:56-62 | The two folders of a cycle have the two names of the cycle as their breadcrumbs, their own last. |
| CompanyReports.StatisticsAndCatalogAgree | backend/app/services/report_discovery_service.py:135-139 | The catalog's root filter and `company_report_ids` select the same reports for every top-level folder. |
| CompanyReports.ReportsByCompany | backend/app/services/stats_service.py:122-132 | The dictionary counts each root's reports exactly, has no other keys, and its counts sum to the number of reports. |
| CompanyReports.CountIsSize | backend/app/services/stats_service.py:115-132 | A company's count is the size of `company_report_ids`. |
| CompanyReports.CountedRootsAreCompanies | backend/app/services/stats_service.py:122-132 | On a forest every counted root is a top-level folder or the reports without one. |
| SnapshotRoots.FolderRoots | backend/migrations/versions/a4e9c7d2f613_stats_activity_foundation.py:175-183 | The recursive query terminates although UNION ALL does not drop duplicates, and yields each folder below a top-level one with exactly that top-level folder. |
| SnapshotRoots.SnapshotIsStatsRoot | backend/migrations/versions/a4e9c7d2f613_stats_activity_foundation.py:175-183 | Its root is the statistics and the audit root wherever it has one, and it has one if and only if the discovery root is top-level. |
| LedgerMigration.Ledger.Upgrade | backend/migrations/versions/a4e9c7d2f613_stats_activity_foundation.py:54-256 | The statements, in order, take the tables to `Upgraded` and fill the snapshot columns as `UpgradedSnapshots`; nothing changes if and only if an encoded grant would break the unique key. |
| LedgerMigration.Ledger.Downgrade | backend/migrations/versions/a4e9c7d2f613_stats_activity_foundation.py:269-355 | The statements, in order, take the tables to `Downgraded`. |
| LedgerEffects.UpgradedRowIs | backend/migrations/versions/a4e9c7d2f613_stats_activity_foundation.py:84-157 | Every old row after the upgrade, column by column, from the rows before it: exactly the uploads that were only enqueued are accepted updates, exactly the repeated creations are updates, exactly the first ones get the key, exactly local administrators are detached, replaced values are kept in meta. |
| LedgerEffects.UpgradedReportIs | backend/migrations/versions/a4e9c7d2f613_stats_activity_foundation.py:73-83 | Exactly the reports made by a local administrator go under the negative id; nothing else of a report changes. |
| LedgerEffects.UpgradedGrantIs | backend/migrations/versions/a4e9c7d2f613_stats_activity_foundation.py:54-75 | Exactly the VIEW_STATS grants made with such a report, for its creator, go under the negative id; nothing else of a grant changes. |
| LedgerEffects.GrantKey | backend/migrations/versions/a4e9c7d2f613_stats_activity_foundation.py:54-75 | The unique key the migration has to respect is made of all columns of a grant but the time of creation. |
| LedgerEffects.InsertedRowIs | backend/migrations/versions/a4e9c7d2f613_stats_activity_foundation.py:205-256 | Every inserted row, column by column, is that of a report without a remaining creation. |
| LedgerEffects.IdsUsed | backend/migrations/versions/a4e9c7d2f613_stats_activity_foundation.py:205-256 | One audit id is used up for every inserted row. |
| LedgerEffects.ActorColumns | backend/migrations/versions/a4e9c7d2f613_stats_activity_foundation.py:160-173 | The actor columns of a row are those of the user who acted and their department, or none. |
| LedgerEffects.ReportColumns | backend/migrations/versions/a4e9c7d2f613_stats_activity_foundation.py:174-201 | The report columns of a row are those of the report it is about. |
| LedgerEffects.NoReportColumns | backend/migrations/versions/a4e9c7d2f613_stats_activity_foundation.py:174-201 | Rows about no existing report have none. |
| LedgerEffects.DowngradedAuditIs | backend/migrations/versions/a4e9c7d2f613_stats_activity_foundation.py:269-294 | The downgrade deletes exactly the backfilled rows and puts back action, result and actor from the three reserved keys, which it removes. |
| LedgerEffects.DowngradedReportIs | backend/migrations/versions/a4e9c7d2f613_stats_activity_foundation.py:345-355 | Exactly the reports under a local administrator's negative id come back under the positive one. |
| LedgerEffects.DowngradedGrantsAre | backend/migrations/versions/a4e9c7d2f613_stats_activity_foundation.py:298-344 | Exactly the grants that came with such a report are decoded, those whose positive twin stands being dropped. |
| LedgerLaws.IdTextInjective | backend/migrations/versions/a4e9c7d2f613_stats_activity_foundation.py:133 | Ids as text are equal only for equal ids, so joins on the text are joins on the id. |
| LedgerEffects.IdTextReads | backend/migrations/versions/a4e9c7d2f613_stats_activity_foundation.py:133 | Ids as text are the decimal numerals, with a minus sign in front of negative ones. |
| LedgerLaws.ExactlyOneCreation | backend/migrations/versions/a4e9c7d2f613_stats_activity_foundation.py:123-256 | After the upgrade every report has exactly one successful `report_create` row, under the key `report-create:<id>`. |
| LedgerLaws.EarliestCreationSurvives | backend/migrations/versions/a4e9c7d2f613_stats_activity_foundation.py:125-157 | The earliest creation of a report keeps its action and gets the key. |
| LedgerLaws.SyntheticExactlyWhereNone | backend/migrations/versions/a4e9c7d2f613_stats_activity_foundation.py:205-256 | A synthetic creation is inserted for exactly the reports that had none left to keep; the key never conflicts. |
| LedgerLaws.EveryRowHasItsSnapshot | backend/migrations/versions/a4e9c7d2f613_stats_activity_foundation.py:160-256 | Old rows, filled by two UPDATEs, and inserted rows, filled by the INSERT, all carry the snapshot their own actor and report call for. |
| LedgerLaws.EventsFiledUnderStatsRoot | backend/migrations/versions/a4e9c7d2f613_stats_activity_foundation.py:174-201 | The company recorded for a report's old events is the statistics root of its folder, and none exactly where there is no top-level folder above. |
| LedgerLaws.UpgradeSucceedsIff | backend/migrations/versions/a4e9c7d2f613_stats_activity_foundation.py:54-75 | The upgrade meets no duplicate grant if and only if no grant stands where one it encodes has to go. |
| LedgerLaws.RowRestoredIff | backend/migrations/versions/a4e9c7d2f613_stats_activity_foundation.py:275-294 | A surviving row comes back with action, result, actor and meta (NULL equal to empty) if and only if its meta held no reserved key. |
| LedgerLaws.AuditRestoredIff | backend/migrations/versions/a4e9c7d2f613_stats_activity_foundation.py:269-294 | Downgrade after upgrade restores the audit rows, one for one, if and only if no reserved key and no canonical creation marked as backfilled existed before. |
| LedgerLaws.ReportsRestoredIff | backend/migrations/versions/a4e9c7d2f613_stats_activity_foundation.py:345-355 | Creator ids come back if and only if no report already stood under a local administrator's negative id. |
| LedgerLaws.GrantsRestoredIff | backend/migrations/versions/a4e9c7d2f613_stats_activity_foundation.py:298-344 | Grant rows come back if and only if none already stood under the encoded id; the redundancy delete then removes nothing. |
| LedgerLaws.DowngradeNeverConflicts | backend/migrations/versions/a4e9c7d2f613_stats_activity_foundation.py:298-344 | After the redundancy delete, decoding the grants never breaks the unique key. |
| LedgerLaws.ReservedKeyIsLost | backend/migrations/versions/a4e9c7d2f613_stats_activity_foundation.py:275-287 | A row that held a reserved meta key does not come back. |
| LedgerLaws.MarkedCreationIsDeleted | backend/migrations/versions/a4e9c7d2f613_stats_activity_foundation.py:270-274 | A canonical creation with target `migration_backfill` is deleted by the downgrade. |
| LedgerLaws.NegativeIdIsLost | backend/migrations/versions/a4e9c7d2f613_stats_activity_foundation.py:326-355 | A report already under a negative administrator id, and its grant, come back under the positive one. |
| ScopeMigration.ScopedFolders | backend/migrations/versions/b1e9f4c6d802_materialize_group_scopes_as_report_grants.py:38-46 | The recursive query terminates on cyclic folders and yields each group with exactly the folders at or below its roots. |
| ScopeMigration.AccessIsPreserved | backend/migrations/versions/b1e9f4c6d802_materialize_group_scopes_as_report_grants.py:37-55 | For every user, operator hint and action, access by grants and scopes before equals access by grants alone after. |
| ScopeMigration.AddedGrantsAreScopes | backend/app/services/permission_service.py:69-85 | An inserted grant addresses a user on a report if and only if a scope of one of the user's groups covered it. |
| ScopeMigration.MaterializedIs | backend/migrations/versions/b1e9f4c6d802_materialize_group_scopes_as_report_grants.py:47-55 | The grants inserted are exactly `VIEW` for the groups of the closure on the reports filed in their folders. |
| ScopeMigration.OperatorsByRole | backend/app/services/permission_service.py:40-69 | Operators are those with the hint, or with a role of the code `System_Operator`. |
| ScopeMigration.AccessIsUnionOfFour | backend/app/services/permission_service.py:64-85 | Operators reach every report; everybody else exactly those granted to them, to one of their roles, to their department or to one of their groups. |
| ScopeMigration.Database.Upgrade | backend/migrations/versions/b1e9f4c6d802_materialize_group_scopes_as_report_grants.py:25-55 | Inserts the grants of the closure, empties the scopes, and changes nobody's access. |
| ScopeMigration.Database.Downgrade | backend/migrations/versions/b1e9f4c6d802_materialize_group_scopes_as_report_grants.py:58-75 | The scope table returns empty, the grants stay, access is unchanged. |
| NextScheduled.ParseTimes | backend/app/services/refresh_query.py:198-204 | Keeps exactly the times that parse. |
| NextScheduled.SearchWindow | backend/app/services/refresh_query.py:208-217 | The nested loops find the earliest slot after now within the eight days. |
| NextScheduled.WindowSuffices | backend/app/services/refresh_query.py:208-217 | Every later slot has an earlier counterpart inside the window and after now. |
| NextScheduled.ComputeNextScheduled | backend/app/services/refresh_query.py:187-217 | The least scheduled instant after now among all future weeks; None if and only if no weekday or no time can be read. |
| NextScheduled.WeekdayNumberIff | backend/app/services/refresh_query.py:167-170 | The number of a day is its place in the week, Monday first. |
| NextScheduled.WeekdaysFollow | backend/app/services/refresh_query.py:211 | Weekdays follow each other from a Monday on 1 January of year 1. |
| NextScheduled.TimeTextReads | backend/app/services/refresh_query.py:200-202 | A text `hh:mm`, possibly with more parts, reads as that time if and only if both are numbers of a clock. |
| NextScheduled.OnePartIsNoTime | backend/app/services/refresh_query.py:200-204 | A text without a colon reads as no time. |
| NextScheduled.ReadableIff | backend/app/services/refresh_query.py:191-206 | A schedule has a weekday and a time that can be read if and only if some instant is scheduled by it. |
| NextScheduled.WeeklyExample | backend/app/services/refresh_query.py:187-217 | Mondays and Fridays at 09:30 and 17:00 are exactly those microseconds of exactly those days. |
| NextScheduled.UnreadableExample | backend/app/services/refresh_query.py:194-206 | Days and times that nobody can read give none. |
| Csv.BuildCsvString | frontend/src/utils/csv.ts:102-108 | The pushed lines joined by CRLF are the text of header and rows. |
| Csv.ParseInvertsExport | frontend/src/utils/csv.ts:50-108 | A reader for section 2 of RFC 4180, the optional last line break included, returns the exact header and cells, with quotes, commas, CR and LF allowed in them, if and only if the last row is not a single empty cell. |
| Csv.ExportReadsBack | frontend/src/utils/csv.ts:76-108 | With the eleven columns of the export it always does. |
| Csv.RefusesMalformed | frontend/src/utils/csv.ts:50-60 | The reader is strict: a lone CR or LF, an open quote, a quote inside a plain field and text after a closing quote are refused. |
| Csv.LineCount | frontend/src/utils/csv.ts:99-107 | Splitting at CRLF gives 1 + rows + the CRLFs inside cells. |
| Csv.DocumentedLineCountIff | frontend/src/utils/csv.ts:99-100 | The documented count 1 + rows holds if and only if no cell contains a CRLF. |
| Csv.DocumentedLineCountCanFail | frontend/src/utils/csv.ts:99-100 | One eleven-column row whose error message has a CRLF gives three pieces instead of two. |
| OpsAlerts.FailingComponents | backend/app/services/ops_alert_service.py:44-67 | Which components a status counts as failing, those behind Redis only while Redis answers. |
| OpsAlerts.ComponentsAreAll | backend/app/services/ops_alert_service.py:32-41 | The seven components processed are all that can fail. |
| OpsAlerts.FailsByStatus | backend/app/services/ops_alert_service.py:44-67 | Which field of the status makes which component fail. |
| OpsAlerts.RoundOutcome | backend/app/services/ops_alert_service.py:113-157 | One check of one component in terms of the status, the store and the mails: both notices and the key, each exactly when. |
| OpsAlerts.Monitor.ProcessAlerts | backend/app/services/ops_alert_service.py:104-157 | Each component makes one step of its own key, store calls that raise included; the two lists name exactly the alerts and the recoveries; switched off, nothing happens. |
| OpsAlerts.Monitor.ProcessRounds | backend/app/workers/tasks/ops_alert.py:20-36 | The periodic checks, from a store without keys, report exactly the notices of the run laws below. |
| OpsAlerts.LiveIffAlertStands | backend/app/services/ops_alert_service.py:115-136 | A key is live if and only if an alert of less than a window ago stands, with the component failing ever since. |
| OpsAlerts.AlertsAreSpaced | backend/app/services/ops_alert_service.py:7 | Two alerts closer than the resend window have a healthy check between them. |
| OpsAlerts.RecoveryFollowsAlert | backend/app/services/ops_alert_service.py:139-153 | A recovery notice answers an alert sent within the window, with no healthy check and no recovery in between. |
| OpsAlerts.AlertIff | backend/app/services/ops_alert_service.py:121-138 | A failing check that can deliver alerts if and only if no standing alert is younger than the window. |
| OpsAlerts.RecoveryIff | backend/app/services/ops_alert_service.py:139-153 | A healthy check that can deliver announces a recovery if and only if an alert of less than a window ago stands. |
| OpsAlerts.RecoveryCanBeMissed | backend/app/services/ops_alert_service.py:139-153 | Found healthy only once the window is over, an alerted component is never announced as recovered. |
| OpsAlerts.FalseRecoveryIff | backend/app/services/ops_alert_service.py:51-63 | A component with its own fault is announced as recovered if and only if it is behind Redis, Redis is reported not ok, and its key can be read, is live, and the mail goes out. |
| OpsAlerts.FalseRecoveryInRun | backend/app/services/ops_alert_service.py:104-157 | Over any run of statuses: exactly when an alert of less than a window ago stands, the fault having been in sight ever since, and this status hides it behind Redis. |
| OpsAlerts.AlertsAreSpacedByStatus | backend/app/services/ops_alert_service.py:7 | Two alerts closer than the window have between them a status without the fault, or one that hid it behind Redis. |
| OpsAlerts.RedisOutageLooksLikeRecovery | backend/app/services/ops_alert_service.py:51-63 | With the worker down throughout, one status that reports Redis as down gives an alert, a recovery and a second alert within one window. |
| OpsAlerts.UnreadableStore | backend/app/services/ops_alert_service.py:116-119 | A key that cannot be read gives no recovery notice, and an alert at every failing check. |
| EmbedTokens.DelayLaws | frontend/src/hooks/useDisplayEmbedTokens.ts:121 | Backoff delays never shrink, lie between 2 s and 60 s, and are at the maximum exactly from the sixth failure on. |
| EmbedTokens.DelayTable | frontend/src/hooks/useDisplayEmbedTokens.ts:121 | The delays are 2, 4, 8, 16, 32 and from then on 60 seconds. |
| EmbedTokens.TokenCache.EnsureToken | frontend/src/hooks/useDisplayEmbedTokens.ts:84-134 | The synchronous part of a call answers with a fresh token, the promise in flight, or a new loop it registers. |
| EmbedTokens.TokenCache.Answered | frontend/src/hooks/useDisplayEmbedTokens.ts:99-123 | A reply caches the token or counts the failure and sleeps, giving up only on 403 and 404. |
| EmbedTokens.AtMostOneLoop | frontend/src/hooks/useDisplayEmbedTokens.ts:87-131 | In every interleaving there is at most one loop per report, and it is the one in flight. |
| EmbedTokens.CallerIsServed | frontend/src/hooks/useDisplayEmbedTokens.ts:87-131 | A caller gets the last token of the report if and only if more than five minutes of it are left, and else the one loop of that report; a new loop starts only if there was none. |
| EmbedTokens.CacheHoldsLastToken | frontend/src/hooks/useDisplayEmbedTokens.ts:99-104 | The cache holds the last token fetched for a report, unless it was invalidated since. |
| EmbedTokens.LoopIsHistory | frontend/src/hooks/useDisplayEmbedTokens.ts:91-123 | Every loop stands where its own successes, failures and wake-ups have put it, asleep for the delay its number of failures calls for. |
| EmbedTokens.RunExists | frontend/src/hooks/useDisplayEmbedTokens.ts:84-134 | Every sequence of steps enabled in turn has its run, so the run laws speak of all of them. |
| EmbedTokens.RetriedOnce | frontend/src/hooks/useDisplayEmbedTokens.ts:84-134 | A failure, a retry after 2 s and a token that serves until five minutes before it expires, to the millisecond. |
| EmbedTokens.FailureCountIsExact | frontend/src/hooks/useDisplayEmbedTokens.ts:105-112 | The counter is the number of failures since the last success, over all reports. |
| EmbedTokens.RetryWaits | frontend/src/hooks/useDisplayEmbedTokens.ts:110-122 | A failed loop that may retry sleeps its full delay, whatever else happens meanwhile. |
| VisibleTime.DurationEffect.Flush | frontend/src/routes/ReportViewPage.tsx:204-219 | Banks the running interval and posts the absolute total if it is news. |
| VisibleTime.DurationEffect.VisibilityChanged | frontend/src/routes/ReportViewPage.tsx:221-227 | Hiding flushes and stops, showing starts counting unless it already counts. |
| VisibleTime.StepKeepsHonest | frontend/src/routes/ReportViewPage.tsx:197-242 | Every step conserves banked + running + unwatched = true visible time, and keeps the server at a posted value no less than the acknowledged one. |
| VisibleTime.ServerIsBounded | frontend/src/api/portalApi.ts:161-169 | Over lossy, repeating and reordering delivery: acknowledged <= server <= min(86400, whole seconds of true visible time). |
| VisibleTime.ServerIsMonotone | frontend/src/api/portalApi.ts:161 | The server's value never goes down. |
| VisibleTime.LatestRepairs | frontend/src/routes/ReportViewPage.tsx:195-218 | Delivering the latest posted value makes good for everything lost before it. |
| VisibleTime.SilentFlushLosesNothing | frontend/src/routes/ReportViewPage.tsx:212-213 | A flush that posts nothing owes nothing: the value due was posted before or the server already has it. |
| VisibleTime.RunIsTold | frontend/src/routes/ReportViewPage.tsx:197-242 | In every run the effect's variables, the true visible time, the time counted, what is confirmed and what the server holds are exactly what the steps say. |
| VisibleTime.PostedIff | frontend/src/routes/ReportViewPage.tsx:204-219 | Exactly the values due and not yet confirmed at a flush are posted, at a full second or more. |
| VisibleTime.AllShownIsCounted | frontend/src/routes/ReportViewPage.tsx:221-230 | Visible time goes uncounted only after a PageHide; without one everything shown is counted. |
| VisibleTime.FlushReportsShownTime | frontend/src/routes/ReportViewPage.tsx:204-219 | So every flush leaves the whole seconds of the true visible time, at most a day, posted or exceeded by the server. |
| VisibleTime.RunExists | frontend/src/routes/ReportViewPage.tsx:197-242 | Every possible sequence of steps has its run. |
| VisibleTime.MinuteOfReading | frontend/src/routes/ReportViewPage.tsx:197-242 | A minute in front of the page: 30 posted at the checkpoint, 60 on hiding, 60 confirmed. |
| RefreshDock.TaskRow.Poll | frontend/src/components/BackgroundTaskDock.tsx:147-210 | The poll effect's branches, in order, are `AfterPoll`. |
| RefreshDock.FieldsAreHistory | frontend/src/components/BackgroundTaskDock.tsx:147-210 | While a task is open its fields say exactly whether progress was ever polled and when a cancel was requested. |
| RefreshDock.PollOutcome | frontend/src/components/BackgroundTaskDock.tsx:147-210 | What a poll does to any open task: each verdict and exactly when it falls, in literal statuses and times. |
| RefreshDock.ClosesIff | frontend/src/components/BackgroundTaskDock.tsx:155-208 | Told from history alone: a poll closes an open task if and only if it shows no progress and is a terminal report that is trusted (progress seen, or over 20 s), or the 5-minute cancel or 10-minute silence limit has passed. |
| RefreshDock.ClosesAs | frontend/src/components/BackgroundTaskDock.tsx:168-208 | Which verdict a poll gives, told from history alone. |
| RefreshDock.ClosedForGood | frontend/src/components/BackgroundTaskDock.tsx:148 | A closed task keeps its verdict under every further poll. |
| RefreshDock.SilenceNeverCloses | frontend/src/components/BackgroundTaskDock.tsx:192-208 | Once seen running and not cancelled, no amount of inconclusive polling closes a task. |
| RefreshDock.RunExists | frontend/src/components/BackgroundTaskDock.tsx:147-210 | Every possible sequence of steps has its run. |
| RefreshDock.CancelThatIsNeverConfirmed | frontend/src/components/BackgroundTaskDock.tsx:192-203 | A run with a cancel request that ends in an error one millisecond after the five minutes. |
| ActivityStats.PeriodMetricsConsistent | backend/app/services/stats_service.py:1657-1727 | For every log, period and scope, views >= unique + repeat viewers and engaged <= views, although two queries produce them. |
| ActivityStats.EventFilters | backend/app/services/stats_service.py:1671-1727 | Which events each query counts, in the texts and limits of the log. |
| ActivityStats.SmallLog | backend/app/services/stats_service.py:1657-1727 | A log of five events with its four figures: the ends of the period count, 30 seconds count as engaged. |
| ActivityStats.ReportMetricsConsistent | backend/app/services/stats_service.py:1371-1453 | The same within every group of one resource text. |
| ActivityStats.IndexByReport | backend/app/services/stats_service.py:1394-1406 | Rows are keyed by the parsed id: texts that are no number are skipped, the last row of an id wins. |
| ActivityStats.ReportPerformance | backend/app/services/stats_service.py:1371-1537 | Each listed report gets the figures its last rows of the two results give, or zeros. |
| ActivityStats.ReportRowsConsistent | backend/app/services/stats_service.py:1371-1537 | The figures of a report's row fit together, in whatever order the query rows come, if the activity of its id is logged under one text. |
| ActivityStats.WrittenIdsHaveOneText | backend/app/api/routes/reports.py:82-93 | Views and downloads written under `str(id)` give every report id one text, whatever the other events of the log carry. |
| ActivityStats.WrittenReportsConsistent | backend/app/services/stats_service.py:1371-1537 | On a log so written every report's row holds the figures of its own events, in whatever order the query rows come, and they fit together. |
| ActivityStats.WrittenExample | backend/app/api/routes/reports.py:82-93 | A log with an event of another kind under any text is still so written. |
| ActivityStats.ViewsCompleteIff | backend/app/services/stats_service.py:1394-1406 | A row shows all views of its report if and only if no view of it is under another text than the last row's. |
| ActivityStats.TwoTextsMislead | backend/app/services/stats_service.py:1394-1453 | Two views by one reader under `7` and one by another under `07` can show 1 view, 1 viewer and 1 repeat viewer. |
| ActivityStats.RatesAreInRange | backend/app/services/stats_service.py:1757-1760 | Engaged and repeat rates of a period lie between 0 and 100. |
| ActivityStats.ReportRatesAreInRange | backend/app/services/stats_service.py:1531 | The engaged rate of every report's row lies between 0 and 100, even where an id has several texts. |
| ActivityStats.ReportRepeatersAreRepeaters | backend/app/services/stats_service.py:1426-1453 | A report's repeat viewers are repeat viewers overall. |

## Left out

- HTTP, SMTP, SQL and Redis transport, Celery wiring, ORM declarations, React rendering and the Power BI embed calls: no algorithm of their own.
- The HR-view queries of the group synchroniser: the rosters, the department map and the companies are inputs, and so is the display order of the teams; the sorted lists of employee names and numbers in a plan are sets here.
- TeamGroupSync.Session.SyncTeamGroups: the plan lists employee numbers as sets; their names and order, and the descriptions of created groups, are display only.
- The theorems on convergence and on a second sync take department ids to be non-empty texts: `by_source` ignores an empty one.
- LedgerMigration.Ledger.Upgrade: does not model the indexes and the Executive_Stats_Reader role.
- LedgerMigration.Ledger.Downgrade: meta is taken to be a JSON object of texts and numbers, and a text under the reserved actor key, whose cast would abort the downgrade, reads as no actor.
- `normalize_grant_codes`, the task store's add, update, remove and rehydrate actions, and `runToCsvRow`'s formatting: each is a single map, filter or lookup with no law across calls.
- An applied sync that is rolled back may still use up group ids: the id sequence is put back with the rows here.
- The dock's cancel-mutation callbacks after `markCancelling`, which write the status unconditionally, and the task's messages and delayed removal.
- Forced token calls and board switches: the single-flight claim is for unforced calls on one board.
- The view-duration route: the server's maximum is taken as portalApi.ts states it.
- Time zones and daylight saving, the rounding of percentages and of floating-point seconds: wall-clock integers, exact rationals and whole milliseconds are used instead.
- The run laws of the alerting take a store that works; single runs are modelled with store calls that fail.
- Labelling and sorting of the per-company counts, and every statistics figure other than the four behind the rates.
