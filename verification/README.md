# Verified models of the planners and reconcilers

This project models, in Dafny 4.11, the parts of the platform that decide without guessing: planners that turn
rows into a plan or refuse, reconcilers that must converge when run again, and the date, schema and text
derivations several modules share. `dafny verify dfyconfig.toml` checks all of it.

| area | files |
|---|---|
| org-catalog migration: plan, references, write, re-run | `OrgPlan`, `OrgPlanTheorems`, `OrgEntries`, `OrgReadOrder`, `References*`, `KeyedRows`, `OrgMigration*`, `OrgCatalogTheorem`, `OrgClaims`, `OrgMergeOrder`, `OrgDatabase`, `OrgExamples` |
| workforce import: plan, diff, org resolver | `WorkforcePlan*`, `WorkforceConservation`, `PersonDiff*`, `OrgResolver*`, `BranchCodes` |
| Cairo calendar | `Calendar`, `YmdText`, `CairoDay` |
| boot-time navigation sync | `NavigationSync`, `NavigationTheorems` |
| HR-only confinement | `HrOnly`, `HrOnlyTheorems` |
| event and expression catalogs | `SchemaDerivations`, `SchemaTheorems` |
| reset schema walk, name lists, name parts | `SchemaWalk`, `NameList`, `NameParts` |

Code that updates something step by step is a method or a class whose contract ties the new state to a
specification function; what the program promises is then proved about that function. Tables and documents are
maps and sequences of rows, a service call is a state update. Text folding, `localeCompare`, the zone offset, the
Arabic vocabulary and JavaScript's printing and parsing of values are parameters; each theorem states what it
needs of them and no more.

## What the proofs found

Each of these is stated as an exact condition, or as a family of inputs, in the lemma named.

- An id inside two arrays is not refused, as `references.ts` line 111 says: the walk flattens it to the outer
  array, so an update is always built, and it fails or overwrites (`ReferencesLimits.SweepIsRightIff`,
  `OrgExamples.NestedListIsOverwritten`).
- The unique-index pre-flight compares losing rows with surviving rows only, and misses two losers of one winner:
  the run then breaks off half-written (`ReferencesIndexes.IndexSurvivesIff`, `OrgRun.CanWriteIff`,
  `OrgExamples.PreflightMissesTwoLosers`).
- The pre-flight does not read an index's partial filter and prints a missing link as nothing. So from a database
  with nothing linked it refuses every merge whose loser has a living section while any other department has one,
  though no index would be broken (`OrgClaims.UnlinkedSectionsClearIff`).
- A run whose plan is accepted still breaks off at a code some living catalog entry holds (`OrgRun.CanWriteIff`).
- On a re-run a new department named like a catalogued one does not join the existing entry, as a comment of
  `plan.spec.ts` has it, but gets its own (`OrgCatalogTheorem.RerunSharesIff`), and new sections of the catalogued
  one then hang from the late comer's entry (`OrgCatalogTheorem.RerunHangsIff`).
- `addDaysYmd` composes, and is undone by `daysBetweenYmd`, only while the dates stay in the years 100 to 9999
  (`YmdText.AddAdd`, `YmdText.AddThenBetween`).
- An employee code with a long number that starts with a zero is not the code its parts compose
  (`WorkforceRows.CodeRecomposesIff`).
- An update can only fail on a document outside the schema, one whose `personal.contact` is no record
  (`PersonDiffTheorems.UpdateSucceedsIff`, `PersonDiffTheorems.AdmittedUpdates`).
- A dry run is wrong for some rows exactly when a new site shares its code with another site, so that it counts a
  branch too many or notes a code mismatch the write run does not find; or when folded names hold a `|` and two
  sections of two new departments read alike, so that it counts one section for two
  (`OrgResolverLimits.AlwaysAlikeIff`, `OrgResolverLimits.MeetingHidesSection`).
- A page added in front of a module whose tile was renamed opens a second tile, though the comment at line 1527 of
  `seed-navigation.ts` says the seed category is created only when the whole group is new
  (`NavigationTheorems.FrontPageLeavesGroup`, `NavigationTheorems.NewPageJoinsIff`).
- Mirroring an assignment does not copy its reach, and compares role and scope only: a grant for a company-wide
  department comes back as one for the holder's own department, and of a role held for two departments only the
  first grant comes back at all (`HrOnlyTheorems.AllLiveOnIff`, `HrOnlyTheorems.ReachIsLost`, `HrExample`). So the
  permission-to-scope map is the old one cut to HR exactly when every grant lost that way is covered by one that
  survives (`HrOnlyTheorems.MapIsCutToHr`, `HrOnlyTheorems.HrGrantsAfter`).
- The two Zod walks also disagree on a number at an empty path and under a key with a bracket
  (`NumericAgreement.CatalogsAgreeIff`).

## Model

| member | source | states |
|---|---|---|
| `Sequences.GroupBy` | apps/api/src/org-catalog-migration/plan.ts:94-98 | the keys in order of first appearance, and under each exactly its rows in their order |
| `OrgPlanner.PlanMerges` | apps/api/src/org-catalog-migration/plan.ts:107-177 | the accepted merges and the problems are those of judging each request against the ones before it |
| `OrgPlanner.GateOneGroup` | apps/api/src/org-catalog-migration/plan.ts:218-228 | the problems of one group: one for each holder with more than one of its rows |
| `OrgPlanner.PlanGroups` | apps/api/src/org-catalog-migration/plan.ts:211-237 | one entry per folded name, ordered members, each group gated |
| `OrgPlanner.CollectMoves` | apps/api/src/org-catalog-migration/plan.ts:195-198 | where each moved section goes, the last merge that moves it winning |
| `OrgPlanner.RelocateSections` | apps/api/src/org-catalog-migration/plan.ts:204-208 | the unlinked sections, each under the department its own is merged into |
| `OrgPlanner.IndexDepartmentKeys` | apps/api/src/org-catalog-migration/plan.ts:229-241 | the folded name of every open department and of every one an earlier run linked |
| `OrgPlanner.PlanOrphans` | apps/api/src/org-catalog-migration/plan.ts:248-254 | one problem per department that is not live and still has unlinked sections |
| `OrgPlanner.PlanSections` | apps/api/src/org-catalog-migration/plan.ts:255-284 | one entry per (company-wide department, folded name), each gated by department |
| `OrgPlanner.PlanOrgCatalog` | apps/api/src/org-catalog-migration/plan.ts:186-296 | the method computes `PlanFor`, the plan all the theorems are about |
| `OrgPlanTheorems.MergesAreSound` | apps/api/src/org-catalog-migration/plan.ts:117-176 | accepted merges come from requests, stay in one branch, repeat no loser, and no winner is a loser |
| `OrgPlanTheorems.MergesQuietIff` | apps/api/src/org-catalog-migration/plan.ts:117-176 | no merge problem is raised exactly when every request names two live departments of one branch, chains with no other, repeats none and moves no section onto one of its name |
| `OrgPlanTheorems.GateIff` | apps/api/src/org-catalog-migration/plan.ts:218-228 | the department gate is silent exactly when no branch holds two rows of one folded name |
| `OrgPlanTheorems.SectionGatesIff` | apps/api/src/org-catalog-migration/plan.ts:256-274 | gating parent by parent is silent exactly when no department holds two sections of one folded name |
| `OrgPlanTheorems.PlanAcceptsIff` | apps/api/src/org-catalog-migration/plan.ts:186-296 | the plan has no problems exactly when the run is acceptable: sensible merges, no branch or department holding a name twice, no orphaned section |
| `OrgEntries.PlanDivides` | apps/api/src/org-catalog-migration/plan.ts:210-284 | the planned entries partition the rows to be catalogued: one entry per parent and folded name, with exactly its rows, oldest first, under the oldest row's code and name |
| `OrgReadOrder.PlanIgnoresReadOrder` | apps/api/src/org-catalog-migration/plan.ts:90-98 | code, name, ordered members and order of the planned entries are the same for every permutation of the rows read |
| `KeyedRows.WriteRows` | apps/api/src/org-catalog-migration/apply.ts:189-192 | rows written one by one get to the end exactly when those to be left duplicate no claim, and no unique index is ever broken on the way |
| `OrgDatabase.Database.CreateDepartmentEntries` | apps/api/src/org-catalog-migration/apply.ts:176-193 | one entry per planned one and every member linked and renamed, exactly when no code is taken and no branch would hold an entry twice; otherwise the entries made and the rows linked so far |
| `OrgDatabase.Database.CreateSectionEntries` | apps/api/src/org-catalog-migration/apply.ts:203-226 | the same for sections, which also stop at the first entry whose parent is not known; what was made before the stop stays |
| `OrgDatabase.Database.ReadBackParents` | apps/api/src/org-catalog-migration/apply.ts:195-201 | parents an earlier run catalogued are found by the same fold and never replace this run's |
| `OrgDatabase.Database.CreateEntries` | apps/api/src/org-catalog-migration/apply.ts:172-228 | it gets to the end exactly when codes are free, parents known and no claim duplicated; the tables are those of the entries created, also when it breaks off |
| `OrgDatabase.Database.MoveSections` | apps/api/src/org-catalog-migration/apply.ts:264-277 | sections of the loser come under the winner, unless that duplicates a claim, and living paths there read branch/department/section |
| `OrgDatabase.Database.SweepCollections` | apps/api/src/org-catalog-migration/apply.ts:249-262 | one merge rewrites every surveyed collection, or stops at a write that fails: the collections before it are swept, its own as far as the write, and those after it are as they were |
| `OrgDatabase.Database.ApplyMerges` | apps/api/src/org-catalog-migration/apply.ts:237-289 | it gets to the end exactly when every rewrite can be made; then every collection is swept, sections moved and losers retired; otherwise the merges done are applied whole, and of the next one either some sweeps are made and no section moved, or every sweep is made and some sections moved |
| `OrgDatabase.Database.Preflight` | apps/api/src/org-catalog-migration/apply.ts:303-311 | the plan over the live rows, the sweeps, and every objection of the rest of the database, the sections and their index included |
| `OrgDatabase.Database.RunOrgCatalogMigration` | apps/api/src/org-catalog-migration/apply.ts:297-337 | a single objection, or a dry run, changes nothing; otherwise the run is written exactly when no code is taken, every parent is known and no two losers of one winner meet in a unique index; from a database with nothing linked, one loser per winner and free codes suffice, every unit is catalogued, every slot renamed and every unique index kept; a run that breaks off leaves some of the entries and no merge, or every entry and some of the merges |
| `OrgRun.CanWriteIff` | apps/api/src/org-catalog-migration/apply.ts:94-144 | a plan nothing objects to can be written to the end exactly under those conditions |
| `OrgRun.FreshRunWrites` | apps/api/src/org-catalog-migration/apply.ts:297-337 | where nothing is linked, one loser per winner and free codes are enough |
| `OrgClaims.AcceptedLinksFit` | apps/api/src/platform/organization/departments/department.model.ts:39-55 | linking an accepted plan never duplicates the unique index of departments or of sections, whatever was linked before |
| `OrgClaims.PlannedCodesApart` | apps/api/src/platform/organization/shared/org-catalog.ts:40-45 | no two planned entries ask for one code |
| `OrgClaims.SectionsClearIff` | apps/api/src/org-catalog-migration/apply.ts:120-144 | the survey of the sections is silent exactly when no living section under a loser prints like one elsewhere |
| `OrgClaims.UnlinkedSectionsClearIff` | apps/api/src/org-catalog-migration/apply.ts:121-136 | from nothing linked it is silent exactly when no loser has a living section or no living section stands under a survivor |
| `OrgClaims.SectionsSurviveIff` | apps/api/src/platform/organization/sections/section.model.ts:35-43 | after a silent survey the merges keep the sections' unique index exactly when no two losers of one winner have sections of one entry |
| `OrgMergeOrder.MergedExactly` | apps/api/src/org-catalog-migration/apply.ts:264-277 | a section moves to its new home, and its path is rebuilt exactly when it lives and its department loses or wins |
| `OrgMergeOrder.MergesInAnyOrder` | apps/api/src/org-catalog-migration/apply.ts:245-287 | any order of the merges succeeds alike and leaves the same departments, sections, paths and documents |
| `OrgMigrationTheorems.ShareIffFold` | apps/api/src/org-catalog-migration/apply.ts:172-193 | two catalogued departments share an entry exactly when their names fold together |
| `OrgMigrationTheorems.BranchHoldsOne` | apps/api/src/org-catalog-migration/plan.ts:218-228 | no branch is left with two catalogued departments of one folded name |
| `OrgMigrationTheorems.ParentsAreKnown` | apps/api/src/org-catalog-migration/apply.ts:203-211 | from a state with nothing linked no section entry is left without a parent |
| `OrgCatalogTheorem.MigrationCatalogues` | apps/api/src/org-catalog-migration/apply.ts:297-337 | from any database with nothing linked, a plan without problems finds every parent and leaves every live department with one entry shared exactly by folded name, no branch or department with two of one entry, every section entry under its department's, and paths intact; `OrgRun.CanWriteIff` says when that state is reached |
| `OrgCatalogTheorem.RerunSharesIff` | apps/api/src/org-catalog-migration/plan.ts:200-237 | over a partly linked database sharing follows the folded names exactly when no new department folds like a linked one |
| `OrgCatalogTheorem.ParentsKnownIff` | apps/api/src/org-catalog-migration/apply.ts:195-211 | every section entry has a parent exactly when each new section's home folds like a department catalogued now or a living catalog entry |
| `OrgCatalogTheorem.RerunHangsIff` | apps/api/src/org-catalog-migration/apply.ts:195-219 | a new section's entry hangs from its home's entry exactly when the home is new, or is linked to the first living entry of its name with no late comer beside it |
| `OrgCatalogTheorem.EverythingLinked` | apps/api/src/org-catalog-migration/apply.ts:172-228 | a written run leaves no living row unlinked |
| `OrgCatalogTheorem.SecondRunPlansNothing` | apps/api/src/org-catalog-migration/plan.ts:179-185 | planning again over the written state, with no merges, gives no entries and no problems |
| `OrgExamples.LateComerGetsItsOwnEntry` | apps/api/src/org-catalog-migration/plan.ts:200-237 | a new row named like a linked one is planned as an entry of its own, and nothing objects |
| `OrgExamples.NestedListIsOverwritten` | apps/api/src/org-catalog-migration/references.ts:79-131 | an id list inside a sub-document array is replaced whole by one id |
| `OrgExamples.PreflightMissesTwoLosers` | apps/api/src/org-catalog-migration/apply.ts:94-147 | two losers of one winner pass the pre-flight, and the second rewrite fails on the unique index |
| `ReferencesSurvey.WrittenCollection` | apps/api/src/org-catalog-migration/apply.ts:245-262 | the surveyed sweeps of a run rename every department slot of a conforming document |
| `References.CollectRefPaths` | apps/api/src/org-catalog-migration/references.ts:65-96 | the paths collected are those the schema declares, sub-schemas and sub-document arrays included |
| `ReferencesTheorems.CollectedIsExpressible` | apps/api/src/org-catalog-migration/references.ts:109-131 | `repointUpdate` answers for every collected reference, also inside two arrays |
| `ReferencesTheorems.SweepFields` | apps/api/src/org-catalog-migration/references.ts:98-131 | sweeping one merge over a conforming document is the substitution of the winner for the loser in every declared slot, and nothing else |
| `ReferencesMerges.SweepMergesIsRenaming` | apps/api/src/org-catalog-migration/apply.ts:245-262 | merging one by one is renaming every loser to its winner at once |
| `ReferencesMerges.SlotsAfterMerges` | apps/api/src/org-catalog-migration/apply.ts:245-262 | afterwards no slot names a retired department, and one names a winner exactly when it named it or one of its losers |
| `ReferencesMerges.MergesCommute` | apps/api/src/org-catalog-migration/apply.ts:245-262 | any order of the merges gives the same document |
| `ReferencesWrites.RepointAll` | apps/api/src/org-catalog-migration/apply.ts:254-261 | one `updateMany`, document after document: it ends where `RepointFirst` does, or stops with the documents before the failing one rewritten and the others not, and keeps every unique index |
| `ReferencesWrites.SweepDocs` | apps/api/src/org-catalog-migration/apply.ts:249-262 | the sweeps of one merge in order, with the same promise |
| `ReferencesWrites.StoppedSlots` | apps/api/src/org-catalog-migration/apply.ts:249-262 | where the sweeps stop, a department slot outside arrays names the winner exactly where its `updateMany` reached the document, and reads what it read everywhere else |
| `ReferencesWrites.WritesRename` | apps/api/src/org-catalog-migration/apply.ts:245-262 | writing every merge over a sound collection renames every slot, or breaks off exactly when the renamed collection would break a unique index |
| `ReferencesSurvey.SurveyReferences` | apps/api/src/org-catalog-migration/apply.ts:94-147 | the sweeps are the references that name a loser today; the survey is silent exactly when no index risk clashes |
| `ReferencesSurvey.UniqueIndexRisks` | apps/api/src/org-catalog-migration/references.ts:156-170 | the unique indexes whose key includes the path, each with its other keys |
| `ReferencesSurvey.SurveyedSweepsSuffice` | apps/api/src/org-catalog-migration/apply.ts:94-111 | paths the survey skipped stay silent throughout, so sweeping the rest is sweeping all |
| `ReferencesSurvey.ShapeHidesNothing` | apps/api/src/org-catalog-migration/apply.ts:120-141 | rows with equal index keys have equal projected shapes |
| `ReferencesIndexes.IndexSurvivesIff` | apps/api/src/org-catalog-migration/apply.ts:112-145 | after a silent pre-flight a partial unique index holds exactly when no two losers of one winner meet among the documents it covers |
| `ReferencesIndexes.CollectionSurvivesIff` | apps/api/src/org-catalog-migration/apply.ts:120-144 | the same for all unique indexes of a collection |
| `ReferencesIndexes.OneLoserPerWinner` | apps/api/src/org-catalog-migration/apply.ts:130-136 | with one loser per winner no two losers meet |
| `ReferencesLimits.SweepIsRightIff` | apps/api/src/org-catalog-migration/references.ts:65-131 | the sweep is right on every conforming document exactly when no reference sits inside two arrays |
| `Calendar.CivilInverse` | packages/contracts/src/common/cairo-date.ts:61-64 | every day number is that of the date it is written as |
| `Calendar.NumberInverse` | packages/contracts/src/common/cairo-date.ts:67-82 | every real Gregorian date is the date of its day number |
| `Calendar.EarlierIff` | packages/contracts/src/common/cairo-date.ts:9-10 | one date is before another exactly when its day number is smaller |
| `YmdText.IsYmdIff` | packages/contracts/src/common/cairo-date.ts:66-89 | `isYmd` accepts exactly the texts of the real dates of the years 100 to 9999 |
| `YmdText.YmdIsAccepted` | packages/contracts/src/common/cairo-date.ts:66-83 | an accepted text is the text of its date and reads as that date's midnight |
| `YmdText.TextUsableIff` | packages/contracts/src/common/cairo-date.ts:61-89 | the text of a day is accepted again exactly within those years |
| `YmdText.AddMoves` | packages/contracts/src/common/cairo-date.ts:119-121 | `addDaysYmd` moves the day number |
| `YmdText.BetweenCounts` | packages/contracts/src/common/cairo-date.ts:123-125 | `daysBetweenYmd` answers exactly for two accepted texts, with the difference of their day numbers |
| `YmdText.BetweenThenAdd` | packages/contracts/src/common/cairo-date.ts:119-125 | adding the days between two dates leads from one to the other |
| `YmdText.AddThenBetween` | packages/contracts/src/common/cairo-date.ts:119-125 | the days added are counted back exactly when the sum is an accepted date |
| `YmdText.AddAdd` | packages/contracts/src/common/cairo-date.ts:119-121 | adding m then n days is adding m + n exactly when the day in between is an accepted date |
| `YmdText.TextOrder` | packages/contracts/src/common/cairo-date.ts:9-10 | the texts of accepted dates compare as strings exactly as the dates do |
| `CairoDay.OffsetRead` | packages/contracts/src/common/cairo-date.ts:127-139 | the offset recovered from the wall clock is the zone's |
| `CairoDay.SolveBegins` | packages/contracts/src/common/cairo-date.ts:141-152 | one correction lands on the first instant of the day, on both change days as on any other |
| `CairoDay.DayStartIsIff` | packages/contracts/src/common/cairo-date.ts:148-152 | the computed start is that instant exactly when the date is not 0100-01-01 with a forward jump opening it |
| `CairoDay.DayStartIsLeast` | packages/contracts/src/common/cairo-date.ts:141-152 | `cairoDayStart(d)` is the least instant whose Cairo date is d |
| `CairoDay.StartsPartitionTime` | packages/contracts/src/common/cairo-date.ts:148-156 | an instant carries a date exactly from its start up to the next day's start |
| `CairoDay.NextMidnightIff` | packages/contracts/src/common/cairo-date.ts:154-156 | `nextCairoMidnight` answers exactly for the accepted dates but the last, with the first later instant on another date |
| `WorkforceRows.IdentityKeyIff` | apps/api/src/workforce-import/plan.ts:150-170 | two usable rows have one key exactly when they share a national ID, or have none and share a code |
| `WorkforceRows.SplitCode` | apps/api/src/workforce-import/plan.ts:141-148 | the parts are the code's own, and the number has at least four digits |
| `WorkforceRows.CodeRecomposesIff` | apps/api/src/workforce-import/plan.ts:203-221 | branch and formatted number give the code back exactly when the number is four digits or has no leading zero |
| `WorkforceRows.SameValueIff` | apps/api/src/workforce-import/plan.ts:351-362 | comparing keys one way and counting them is equality |
| `WorkforceRows.SayTheSameIff` | apps/api/src/workforce-import/plan.ts:337-349 | two copies say the same exactly when moving one to the other's place, ending and all, makes them one row |
| `WorkforcePlanSpec.LatestOf` | apps/api/src/workforce-import/plan.ts:334 | the answer is one of the rows, and no row has a greater number |
| `WorkforcePlanner.CollapseCopies` | apps/api/src/workforce-import/plan.ts:300-328 | one kept row per hire date and the disagreements, as the specification gives them |
| `WorkforcePlanner.BuildPlan` | apps/api/src/workforce-import/plan.ts:179-229 | the method computes `PlanOf`, the plan all the theorems are about |
| `WorkforceSpells.KeptIsRight` | apps/api/src/workforce-import/plan.ts:330-335 | the kept copy is an ended one if there is one, and no later row of its kind is among the copies |
| `WorkforceSpells.SpellsAreHistory` | apps/api/src/workforce-import/plan.ts:267-273 | spells have distinct hire dates, exits come before serving rows, each kind in increasing hire date, and they are exactly the kept copies |
| `WorkforceSpells.ServingIff` | apps/api/src/workforce-import/plan.ts:217-225 | a person serves exactly when the last spell is a Master row, which is when some Master row shares its hire date with no Resignation row |
| `WorkforcePlanTheorems.RejectedIff` | apps/api/src/workforce-import/plan.ts:183-215 | the rejections are exactly those of the unusable rows and of the people whose current code has the wrong shape |
| `WorkforcePlanTheorems.DisagreeingIff` | apps/api/src/workforce-import/plan.ts:314-326 | a disagreement is reported exactly for the employments with a copy that differs from the kept one |
| `WorkforcePlanTheorems.NoRowIsLost` | apps/api/src/workforce-import/plan.ts:179-229 | every row is rejected, a kept spell, a copy that agrees with a kept spell or is named in a report, or belongs to a person whose code was refused |
| `WorkforcePlanTheorems.PeopleAreWellPlanned` | apps/api/src/workforce-import/plan.ts:197-226 | each person is one ordered history of one identity, and no identity is planned twice |
| `WorkforceConservation.RowsAreConserved` | apps/api/src/workforce-import/plan.ts:179-229 | counted with repetitions, the rows are the rejected, the spells, the spells of refused people and the copies set aside |
| `WorkforceConservation.SpellOfOnePerson` | apps/api/src/workforce-import/plan.ts:197-226 | a row is a spell of one person only |
| `WorkforceConservation.PeopleIgnoreOrder` | apps/api/src/workforce-import/plan.ts:179-229 | the people planned do not depend on the order of the rows |
| `WorkforceConservation.RejectedIgnoresOrder` | apps/api/src/workforce-import/plan.ts:228-229 | nor does the rejection list, order included |
| `WorkforceConservation.DisagreeingIgnoresOrder` | apps/api/src/workforce-import/plan.ts:314-326 | nor which employments are reported, with which kept and dropped rows |
| `DocumentPaths.ReadPath` | apps/api/src/workforce-import/sync.ts:177-185 | the moving cursor reads the value at the path, and nothing below what is not a record |
| `DocumentPaths.WriteAllSucceedsIff` | apps/api/src/workforce-import/sync.ts:147-153 | independent writes succeed together exactly when each could be made |
| `DocumentPaths.WriteAllThenRead` | apps/api/src/workforce-import/sync.ts:310-312 | each of several independent writes is read back |
| `DocumentPaths.WriteAllFrame` | apps/api/src/workforce-import/sync.ts:310-312 | a path no write overlaps reads as before |
| `PersonDiff.Compare` | apps/api/src/workforce-import/sync.ts:282-295 | the direct changes, the absent blocks spoken of in order, and their drafts |
| `PersonDiff.DiffPerson` | apps/api/src/workforce-import/sync.ts:249-308 | the method computes `DiffOf`, the difference all the theorems are about |
| `PersonPaths.DesiredIndependent` | apps/api/src/workforce-import/sync.ts:58-133 | everything desired is at a path of a known shape and no desired path leads through another |
| `PersonDiffTheorems.SameIdIff` | apps/api/src/workforce-import/sync.ts:187-207 | a stored id is the same fact as a text exactly when it is that id; nothing stored is the same as null |
| `PersonDiffTheorems.ChangeMember` | apps/api/src/workforce-import/sync.ts:283-306 | a change is a desired path whose fact differs, or an absent block the file says something of |
| `PersonDiffTheorems.ChangesIndependent` | apps/api/src/workforce-import/sync.ts:283-306 | no two changes overlap |
| `PersonDiffTheorems.NothingInsideAbsent` | apps/api/src/workforce-import/sync.ts:147-158 | no change writes inside an insurance or officer block that is null |
| `PersonDiffTheorems.UpdateSucceedsIff` | apps/api/src/workforce-import/run.ts:551-568 | the update fails exactly when `personal.contact` is there but is no record and the row fills a phone column |
| `PersonDiffTheorems.AdmittedUpdates` | apps/api/src/modules/hr/employee-management/employees/employee.model.ts:294-305 | every employee the schema admits can be updated, whatever the row says |
| `PersonDiffTheorems.DiffConverges` | apps/api/src/workforce-import/sync.ts:249-308 | applying the changes and diffing again gives no changes and the same refusals |
| `PersonDiffTheorems.HeldIdStays` | apps/api/src/workforce-import/sync.ts:258-270 | a held national ID is never replaced |
| `PersonDiffTheorems.PlacementHolds` | apps/api/src/workforce-import/sync.ts:122-130 | both copies of the placement name the resolved units afterwards |
| `PersonDiffTheorems.OutsideStays` | apps/api/src/workforce-import/sync.ts:1-10 | what the file does not ask about stays; below a block just made it is null or still missing |
| `UnitCodes.NextFreeCodeIsFresh` | apps/api/src/workforce-import/org.ts:512-519 | a minted code is in no list it was minted against, and is one past the highest of its prefix |
| `UnitCodes.ReadAll` | apps/api/src/workforce-import/org.ts:110-121 | reading page after page gives every row once, in order, and stops |
| `BranchCodes.Tally` | apps/api/src/workforce-import/org.ts:41-50 | the sites in order, each with its prefixes and counts |
| `BranchCodes.DeriveBranchCodes` | apps/api/src/workforce-import/org.ts:38-68 | the codes and the ambiguous sites, as the ranking gives them |
| `BranchCodes.CodeIffDominant` | apps/api/src/workforce-import/org.ts:52-66 | a site gets a code exactly when one prefix outnumbers every other there, and that is its code |
| `BranchCodes.CodedOrReported` | apps/api/src/workforce-import/org.ts:52-66 | every site voted on has a code or is reported, never both |
| `BranchCodes.CodesIgnoreOrder` | apps/api/src/workforce-import/org.ts:38-68 | the codes do not depend on the order of the rows |
| `OrgResolver.Resolver.Branch` | apps/api/src/workforce-import/org.ts:181-209 | state and answer are those of the specification: cached, matched, counted or created |
| `OrgResolver.Resolver.Department` | apps/api/src/workforce-import/org.ts:283-325 | the same for a department, its catalog entry looked up first |
| `OrgResolver.Resolver.Section` | apps/api/src/workforce-import/org.ts:366-413 | the same for a section, its entry under the department's when that has one |
| `OrgResolver.Resolver.JobTitle` | apps/api/src/workforce-import/org.ts:415-452 | the same for a job title |
| `OrgResolver.Resolver.Resolve` | apps/api/src/workforce-import/org.ts:160-179 | the method computes `Resolve`, the step all the theorems are about |
| `OrgResolverMemory.SamePlaceSameIds` | apps/api/src/workforce-import/org.ts:160-179 | whatever was resolved in between, a row that folds alike gets the same ids and changes nothing |
| `OrgResolverGrowth.RunGrows` | apps/api/src/workforce-import/org.ts:160-452 | a run only adds rows, at most one per folded name and parent, each under a code no other row of its collection has |
| `OrgResolverGrowth.MintedDistinct` | apps/api/src/workforce-import/org.ts:142-151 | the codes minted during a run are pairwise distinct |
| `OrgResolverDryRun.DryRunCountsAlike` | apps/api/src/workforce-import/org.ts:83-88 | when no new site shares its code and no two sections of departments new to one site read alike, a dry run writes nothing and ends with the counters and notes of a write run |
| `OrgResolverLimits.AlwaysAlikeIff` | apps/api/src/workforce-import/org.ts:83-88 | counters and notes agree on all rows exactly when no site that is new to the registry shares its code with another site, and no two sections of two departments new to one site read alike |
| `OrgResolverLimits.BarFreeFoldsApart` | apps/api/src/workforce-import/org.ts:366-411 | where folded names hold no separator, no two sections read alike |
| `OrgResolverLimits.MeetingHidesSection` | apps/api/src/workforce-import/org.ts:366-411 | where two sections read alike, over any registry, two rows make the dry run count one section and the write run make two |
| `OrgResolverLimits.SharedCodeCountsTwice` | apps/api/src/workforce-import/org.ts:193-208 | two new sites with one code count two branches dry and make one |
| `OrgResolverLimits.NamedSiteIsNoted` | apps/api/src/workforce-import/org.ts:193-208 | a site found by name is noted for its code dry, and not once a branch of that code has been made |
| `OrgResolverLimits.SeparatorHidesSection` | apps/api/src/workforce-import/org.ts:366-411 | under a fold that keeps the separator that happens at every coded site |
| `ZodSchemas.UnwrapForEvents` | packages/contracts/src/events/catalog.ts:379-415 | the bounded loop peels what `Unwrapped` peels, with both answers |
| `ZodSchemas.UnwrapForExpressions` | packages/contracts/src/expression/field-catalog.ts:63-92 | the other loop peels the same wrappers and finds the same nullability |
| `JsonSchemas.ToJsonSchemaNode` | packages/contracts/src/events/catalog.ts:581-642 | the node is `Json` of the schema |
| `ExpressionFields.NumericLeaves` | packages/contracts/src/expression/field-catalog.ts:111-131 | what is pushed is exactly `Leaves`, after what was there |
| `ExpressionFields.ExpressionCatalogFromSchema` | packages/contracts/src/expression/field-catalog.ts:139-147 | the catalog is the leaves sorted by path |
| `NumericAgreement.CatalogsAgreeIff` | packages/contracts/src/expression/field-catalog.ts:9-16 | the two derivations give the same numeric paths and nullability exactly when no bigint, no number beyond the depth limit, none at an empty path and none under a key with a bracket is described |
| `NumericAgreement.OrdinarySchemasAgree` | packages/contracts/src/expression/field-catalog.ts:97-131 | they agree on every object schema without bigints, within the depth limit, with plain keys |
| `SchemaResolution.FieldsResolve` | packages/contracts/src/events/catalog.ts:434-466 | every described field resolves in the generated JSON Schema with the same type, nullability and optionality |
| `NavigationOrders.OrdersIncreaseIff` | apps/api/src/seed-navigation.ts:1567-1595 | the module comes out strictly increasing exactly when the stored rows were, and were above -10 if a row is missing in front |
| `NavigationOrders.NewGroupNumbers` | apps/api/src/seed-navigation.ts:1568-1570 | a wholly new group is numbered 0, 10, 20 and so on |
| `Navigation.Installation.FindCatalogCategory` | apps/api/src/seed-navigation.ts:1342-1360 | the tile of the module: by name, or the majority holder that is no other module's |
| `Navigation.Installation.CorrectCategoryIcon` | apps/api/src/seed-navigation.ts:1370-1387 | one tile below the revision takes the icon and records the revision |
| `Navigation.Installation.RetireApplications` | apps/api/src/seed-navigation.ts:1397-1418 | the newly retired pages are switched off and the latest revision recorded |
| `Navigation.Installation.PlaceNewRows` | apps/api/src/seed-navigation.ts:1558-1596 | missing pages are added at their orders, in the group of the first page or the seed's own |
| `Navigation.Installation.SyncNavigationCatalog` | apps/api/src/seed-navigation.ts:1545-1598 | the boot computes `Sync`, the step all the theorems are about |
| `NavigationViews.HolderIff` | apps/api/src/seed-navigation.ts:1345-1355 | the holder is the one group with more than half of the stored pages, whatever order they are read in |
| `NavigationViews.OneMajority` | apps/api/src/seed-navigation.ts:1335-1341 | at most one group holds more than half |
| `NavigationTurns.RevisionsNeverDecrease` | apps/api/src/seed-navigation.ts:1545-1598 | a boot lowers no recorded revision, renames no tile, and moves or renumbers no stored page |
| `NavigationTheorems.BootInOrderIff` | apps/api/src/seed-navigation.ts:1538-1543 | after a boot a module is in catalog order exactly when its stored pages were placeable |
| `NavigationTheorems.SecondBootCreatesNothing` | apps/api/src/seed-navigation.ts:1571-1596 | a second boot creates no page and no tile |
| `NavigationTheorems.SeedTilesMade` | apps/api/src/seed-navigation.ts:1571-1582 | a boot makes one tile for each module whose first page is new and whose name no tile has, in catalog order, and no other tile |
| `NavigationTheorems.NewPageGoesTo` | apps/api/src/seed-navigation.ts:1571-1582 | after a boot every page that was new is in the group of its module's first page, or, where that page was new too, in the tile of the module's name |
| `NavigationTheorems.FrontPageLeavesGroup` | apps/api/src/seed-navigation.ts:1527-1528 | after a boot a page added in front of a renamed module is in a new tile of the module's name, while the stored pages stay in the old group |
| `NavigationTheorems.NewPageJoinsIff` | apps/api/src/seed-navigation.ts:1571-1582 | after a boot a new page is in the group its module's stored pages live in exactly when the first page was stored or that group has the module's own name |
| `NavigationTheorems.QuietBootKeepsIcon` | apps/api/src/seed-navigation.ts:1362-1373 | a boot leaves a tile's icon alone once the tile has recorded the revision of every module it is |
| `NavigationTheorems.BootRecords` | apps/api/src/seed-navigation.ts:1382-1386 | after a boot the tile has recorded the icon revision of every module it was |
| `NavigationTheorems.RunKeepsRevisions` | apps/api/src/seed-navigation.ts:1362-1418 | over any run of boots and edits recorded revisions never decrease |
| `NavigationTheorems.IconIsTheAdministrators` | apps/api/src/seed-navigation.ts:1535-1537 | over any run, while the tile stays the same modules', no boot after the first changes its non-null icon |
| `NavigationTheorems.StatusIsTheAdministrators` | apps/api/src/seed-navigation.ts:1389-1396 | over any run, no boot after the first switches off a page an administrator switched back on |
| `HrPolicy.ClassifyPermissionKeys` | apps/api/src/hr-only-policy.ts:52-65 | each class exactly when its condition holds, an unknown key counting as outside HR |
| `HrPolicy.HrKeysOf` | apps/api/src/hr-only-policy.ts:67-71 | exactly the HR keys among those given |
| `HrPolicy.DerivedKeysApart` | apps/api/src/hr-only-policy.ts:21-22 | two source roles never share a derivative |
| `HrAccess.Account.ReconcileRoles` | apps/api/src/hr-only-access.ts:115-170 | the account is `Reconciled` of what it was, and the count is of the assignments replaced |
| `HrOnlyTheorems.LivesOnIff` | apps/api/src/platform/rbac/rbac.service.ts:1522-1541 | one replaced assignment lives on exactly when its derivative was held on its terms, or was not held and the first of its role and scope carries those terms over |
| `HrOnlyTheorems.AllLiveOnIff` | apps/api/src/hr-only-access.ts:161-164 | every replaced assignment lives on, scope, home, reach and window alike, exactly when none reaches beyond home, or its derivative was held on its terms already |
| `HrOnlyTheorems.ReachIsLost` | apps/api/src/platform/rbac/rbac.service.ts:1530-1541 | a grant with a reach of its own never lives on, unless its derivative had that reach |
| `HrOnlyTheorems.RunKeepsIndex` | apps/api/src/platform/rbac/role-assignment.model.ts:48-59 | no mirror of a run duplicates the unique index on role, scope and company-wide department |
| `HrOnlyTheorems.HrGrantsAfter` | apps/api/src/hr-only-access.ts:143-168 | after every assignment of the run an HR key is granted in a place exactly when a grant of it from before the run stands there: its own place if left alone, home if its derivative takes it over |
| `HrOnlyTheorems.HrNeverShrinks` | apps/api/src/hr-only-access.ts:143-144 | so where no replaced grant reaches beyond home, no step changes the HR part of what is granted, or where |
| `HrOnlyTheorems.MirrorComesFirst` | apps/api/src/hr-only-access.ts:143-167 | between the mirror and the revocation everything granted before is still granted, and what is new is the HR part of the role at the assignment's home units |
| `HrOnlyTheorems.OnlyHrIsLeft` | apps/api/src/hr-only-access.ts:133-141 | after the run nothing outside HR is granted and no system role is held |
| `HrOnlyTheorems.MapIsCutToHr` | apps/api/src/hr-only-access.ts:171-175 | at a key and a time the permission-to-scope map after the run is the map before it cut to the HR keys exactly when the key is outside HR or every grant of it that does not survive is covered by one that does, at a scope as wide |
| `HrOnlyTheorems.MapNeverShrinksIff` | apps/api/src/hr-only-access.ts:143-144 | every step of the run leaves the map at an HR key alone exactly under that same condition, which reads the state before the run only |
| `HrOnlyTheorems.SecondRunIsQuiet` | apps/api/src/hr-only-access.ts:131-141 | a second run revokes nothing and changes nothing |
| `HrExample.ExpiredMirrorLosesAccess` | apps/api/src/platform/rbac/rbac.service.ts:1528-1529 | a role held for two company-wide departments, the first grant expired, loses its HR access everywhere |
| `HrExample.MirrorMovesHome` | apps/api/src/platform/rbac/rbac.service.ts:1530-1541 | a grant for a company-wide department is mirrored as one for the holder's own department, which it did not cover |
| `HrExample.MapKeptReachLost` | apps/api/src/platform/rbac/rbac.service.ts:1530-1541 | a lone grant that reaches a branch loses the reach, and its map is cut as it should be all the same |
| `SchemaWalk.ChainIsShort` | apps/api/src/workforce-reset/targets.ts:55-66 | the ancestor chain is never longer than there are schemas |
| `SchemaWalk.PathsMatching` | apps/api/src/workforce-reset/targets.ts:59-77 | the walk ends on cyclic schemas and finds what `Found` finds |
| `SchemaWalk.FoundIsReal` | apps/api/src/workforce-reset/targets.ts:59-77 | every path found is a real way down whose last name matches |
| `SchemaWalk.FoundIff` | apps/api/src/workforce-reset/targets.ts:45-58 | something is found exactly when some way down the schemas reaches a matching name |
| `SchemaWalk.CollectionsMatching` | apps/api/src/workforce-reset/targets.ts:80-92 | the collections with a match, each with the paths of all its models |
| `SchemaWalk.Classify` | apps/api/src/workforce-reset/targets.ts:95-119 | refused exactly when a collection is not in the table, naming exactly those; otherwise one target each |
| `SchemaWalk.ClassifyCollections` | apps/api/src/workforce-reset/targets.ts:95-119 | the reset refuses exactly when some model reaches a matching name and its collection is not in the table |
| `NameList.SplitNameList` | packages/contracts/src/common/index.ts:68-85 | the index loop reads what `NamesIn` reads |
| `NameList.RoundTrip` | packages/contracts/src/common/index.ts:57-61 | splitting a joined list gives the names trimmed and without empties, whatever characters they hold |
| `NameList.RereadIsStable` | packages/contracts/src/common/index.ts:57-85 | joining what was read and reading it again changes nothing, on any text |
| `NameList.PlainListsReadAlike` | packages/contracts/src/common/index.ts:48-55 | text without a backslash reads as a plain comma list |
| `NameParts.NamePartsOf` | packages/contracts/src/common/field-rules.ts:47-65 | the look-ahead loop gives the parts `PartsOf` gives |
| `NameParts.PartsKeepWords` | packages/contracts/src/common/field-rules.ts:42-65 | the parts keep every word, in order |
| `NameParts.LeadingIsStable` | packages/contracts/src/common/field-rules.ts:76-82 | reading the first k parts again gives exactly those parts |
| `NameParts.LeadingCount` | packages/contracts/src/common/field-rules.ts:74-82 | so their number is that of the slice, at most k for a k that is not negative |

## Left out

- `OrgDatabase.Database.ApplyMerges`: the references of one collection are swept in schema order where the program sorts them by path, and the sections after the other collections; whether a run gets to the end and what it leaves then depend on neither. Among the sections of a merge that breaks off there, which of them have moved is left open, since `updateMany` names no order.
- `OrgDatabase.Database.Preflight`: documents with free-form org ids are a set of ids that only cause a refusal; their contents are never rewritten by the program either.
- `ReferencesWrites.WritesRename`: an index key that leads through an array is read as absent, where MongoDB keeps one key per element; no unique index over a department has one.
- `CairoDay.DayStartIsLeast`: an instant's clock is that of the proleptic calendar; dates before the year 1, which `Intl` prints without their era, are not told apart here.
- `CairoDay.OffsetRead`: holds for clocks from the year 100 on, since `Date.UTC` reads earlier years as 1900 to 1999; `CairoDay.DayStartIsIff` says what that means for `cairoDayStart`.
- `WorkforceRows.CodeRecomposesIff`: numbers are unbounded; `Number` loses digits beyond 2^53.
- `WorkforceConservation.PeopleIgnoreOrder`: assumes no two rows sit in one place of one sheet, which is what a row number is.
- `PersonDiff.DiffPerson`: the report texts `from` and `to` of a change are not modelled, only its path and value; a row's insurance columns are read in the order of the block's declared fields.
- `OrgResolverLimits.AlwaysAlikeIff`: branch codes, the first three characters of employee codes, are taken to hold no `|`.
- `OrgResolverGrowth.RunGrows`: a failing create is not modelled; the services are assumed to add the row they are asked for.
- `NavigationOrders.OrdersIncreaseIff`: sort orders are real numbers; halving a gap of doubles some fifty times leaves none.
- `NavigationTheorems.IconIsTheAdministrators`: an administrator may change anything but recorded revisions, and is assumed not to delete a tile.
- `HrOnlyTheorems.MapIsCutToHr`: delegated grants, which the reconciliation does not touch, are not modelled, and the places of grants are compared as they are stored, not as the units they resolve to.
- `HrAccess.Account.ReconcileRoles`: the list of permission keys it also returns is not built; its members are the keys of the map `HrOnlyTheorems.MapIsCutToHr` is about.
- `SchemaWalk.Classify`: the final sorting of targets by collection name, and the texts of refusals, are not modelled.
- `NumericAgreement.CatalogsAgreeIff`: a recursive `z.lazy` schema is an opaque node, as both walks treat it.
- The writes of `runImport` through the employee service, imported history and exits, and the audit trail: not part of this model.
- `orgKey`, `fold` and the cell readers: Unicode tables and regular expressions, kept as parameters.
- `JsonSchemas.ToJsonSchemaNode`: length, range, pattern and format constraints are not modelled, one branch each.
- Samples, labels and digests of the event catalogue: constants.
- `reconcileApplicationGrants`, `disableTotp` and identifier resolution of the HR-only run: independent single-step updates.
- Expression evaluation, the destructive part of the workforce reset, and all HTTP, queue and browser code: not part of this model.
