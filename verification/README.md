# Proofs about homelab-helper

A Dafny model of the parts of homelab-helper where state changes over long runs or where a loop has a
meaning worth stating, and proofs about them. `dafny verify dfyconfig.toml` checks everything.

| modules | part of the program |
|---|---|
| `Copy`, `Relational` | `helper db copy`: a mirror of one database into another, under foreign keys, in one transaction |
| `DimmFit`, `SortedInts` | placing DIMMs on a board, one offer at a time |
| `Redaction`, `Secrets` | secret references, the resolve-once cache and the redaction of texts |
| `Fingerprint`, `Findings`, `CategoryFindings`, `ArgoCdDrift`, `Assertions`, `Bottlenecks` | the findings table, its four writers and the operator verbs |
| `Lifecycle`, `Histories` | runs of all of them together |
| `NetBoxSync`, `AssertionLibrary` | two diff-and-converge passes with a dry run |
| `WorkloadUsage`, `StringOrder` | usage per Kubernetes workload |
| `Digest`, `TalosStream`, `Capacity`, `Baselines` | digest windows, the Talos resource stream, trend segments, departures from a baseline |

Operations that change state in the program are methods here: of a class where the program keeps the
state (the secret store, the findings table, the NetBox client's remote items, the digest log, the
assertion table, a database session), with loops where it loops. Each is proved against a function of
the old state or against an outright property, and the theorems are about those. A findings pass, for
instance, is proved to move each row as a function of that row alone; a run of passes is then a
fold per row, and both non-interference and the closed-form histories are lemmas about that fold.

Where a wanted property is false of the code, the model keeps the code and proves exactly when it holds:

- Redaction cannot be trusted with every secret: one that starts or ends with `*`, or holds `***`, can be
  spelled again by its own replacement (`Redaction.ScrubbedAlwaysIffSafe`).
- Two findings share a fingerprint exactly when a pipe in an id or a token moves the divider
  (`Fingerprint.CollideIffShifted`). The table is keyed by fingerprint here as in the program, and the run
  theorems ask that no other finding is written under the one they are about. Assertions, which are named
  freely, can break that: `Histories.CollidingAssertions`, `Lifecycle.AssertionsInterfereIffTheyCollide`.
- A NetBox sync leaves behind duplicates of a name and nameless items (`NetBoxSync.ConvergesIffCanonical`).
- A library reload reports updates when two entries of one name disagree
  (`AssertionLibrary.ReloadIsQuietIffConsistent`).
- A dry run of a library tells of an entry what the load does exactly under a condition on the earlier
  entries of its name (`AssertionLibrary.DryRunForetellsIff`); of a repeated new name it announces the
  creation every time.
- A `days` override leaves a gap or an overlap unless it meets the log (`Digest.OverrideTilesIffItMeets`,
  and over whole runs `Digest.RunTilesIffOverridesMeet`).
- Category evidence hands a finding to the bottleneck analyzer exactly when its `type` is the analyzer's
  tag under one of the analyzer's kinds (`Lifecycle.ForgedTagIsTaken`).
- `resolved_at` is set exactly on resolved findings until the operator acknowledges or suppresses one that
  is resolved, which leaves the time behind (`Lifecycle.RunIsExactIffNoTimeIsLeft`).

`Copy.CopyDatabase` is stated for any schema. The program's own only self-reference,
`execution_receipt.rollback_receipt_id`, may be NULL (`db/models/receipt.py:48-50`), so there the condition
on self-references always holds.

Two places where the documentation says something else than the code, which the model follows: the
docstring of `after_last_step` speaks of jumps above a tenth of the total and the code cuts at jumps of at
least a tenth (`engine/capacity.py:98`, `:107`); the docstring of `findings resolve` speaks of a new finding
under the same fingerprint and the code reopens the row (`cli/findings.py:281-284`,
`engine/category_findings.py:131-134`).

Names that differ: `kept` and `same` are the program's `unchanged` buckets, which is a reserved word in
Dafny; `appeared` and `newlyOpened` are `opened`.

## Model

| member | source | states |
|---|---|---|
| `Copy.CopyDatabase` | src/homelab_helper/db/copy.py:106-131 | The copy succeeds if and only if the two URLs differ, both databases have a revision and it is the same, no statement fails for an outside reason, the counts agree, and every self-reference that is set is in a nullable column: no statement is otherwise refused by a constraint. On success every table mirrors the source key by key, whatever the batch size and scan order, and the report gives each table its row count; on any failure the committed contents are those from before. Each refusal is given exactly when its check is the first to fail, and a miscount names a table and both counts. |
| `Copy.CopyTable` | src/homelab_helper/db/copy.py:80-103 | One empty table is filled from its scan, batch by batch, exactly when no outside fault strikes and its set self-references may wait as NULL; it then equals the source table, whatever forward references and cycles it holds. |
| `Copy.EmptyTables` | src/homelab_helper/db/copy.py:119-120 | Deleting children first is never refused by a foreign key and leaves every table of the schema empty. |
| `Copy.FillTables` | src/homelab_helper/db/copy.py:121-122 | Filling parents first ends with all tables as in the source, if and only if nothing outside fails and all self-references are deferrable. |
| `Copy.ApproachIntact` | src/homelab_helper/db/copy.py:80-103 | Every state a table passes through on its way from empty to full keeps all constraints of the whole database, for any self-reference graph: no self-reference is set until all rows are there, and then any of them may be. |
| `Copy.InsertBatch` | src/homelab_helper/db/copy.py:91-99 | A batch takes the table from the first `from` stripped rows of the scan to the first `from + size`; it is refused only by an outside fault or a NOT NULL self-reference. |
| `Copy.InsertAccepted` | src/homelab_helper/db/copy.py:91-99 | Inserting the next stripped row keeps the database intact and its key is not NULL. |
| `Copy.StripBatch` | src/homelab_helper/db/copy.py:92-97 | The batch is the stripped rows in order, and the debts noted are exactly the self-references that were blanked so far, by primary key. |
| `Copy.SetDeferred` | src/homelab_helper/db/copy.py:100-102 | The deferred updates restore the source table exactly, and none of them is refused except by an outside fault. |
| `Copy.UpdateStep` | src/homelab_helper/db/copy.py:100-102 | One deferred update leaves the database intact and one debt fewer, whatever order the debts come in. |
| `Copy.AcceptedMeansDeferrable` | src/homelab_helper/db/copy.py:94-98 | If the engine took the stripped rows, every blanked column may be NULL: the condition for success is necessary as well as sufficient. |
| `Copy.UnowedIsWhole` | src/homelab_helper/db/copy.py:94-98 | A row to which no update is owed already went in as the source has it. |
| `Copy.CompareCounts` | src/homelab_helper/db/copy.py:123-130 | The last check passes exactly when a second count of the source agrees with the rows copied, so on an unchanged source it never fires. |
| `Relational.Target.Insert` | src/homelab_helper/db/copy.py:98 | An insert is refused on a fault, a NULL or taken key, or any broken constraint, and then changes nothing. |
| `Relational.IntactMeans` | src/homelab_helper/db/copy.py:83-85 | What the constraints demand, written out: columns, primary keys, NOT NULL, and no reference to a row that is not there, which is why forward references cannot go in as they come. |
| `DimmFit.OfferAllKeepsLargest` | src/homelab_helper/engine/dimm_fit.py:50-82 | Offering any sequence of DIMMs, one at a time, leaves exactly the K largest of installed plus offered, K being installed plus free slots, ascending. |
| `DimmFit.OfferOrderIrrelevant` | src/homelab_helper/engine/dimm_fit.py:50-82 | Any permutation of the offers ends with the same installed sizes. |
| `DimmFit.OfferAllIsBest` | src/homelab_helper/engine/dimm_fit.py:50-82 | No other choice of as many DIMMs out of installed and offered totals more. |
| `DimmFit.OfferKeepsLargest` | src/homelab_helper/engine/dimm_fit.py:50-82 | One offer keeps the K largest of installed plus the new one, keeps the list sorted and the room the same. |
| `DimmFit.RefusedIffNothingGained` | src/homelab_helper/engine/dimm_fit.py:50-64 | An offer is refused if and only if the best use of the room is what is already installed. |
| `DimmFit.AcceptedGrowsBy` | src/homelab_helper/engine/dimm_fit.py:50-82 | An accepted offer grows the installed total by exactly the announced `net_bytes`, observed slots or not, and the list ends sorted. |
| `DimmFit.LargestStreams` | src/homelab_helper/engine/dimm_fit.py:50-82 | Keeping the K largest after each element is the same as keeping them once at the end. |
| `DimmFit.MaximumNeverRefuses` | src/homelab_helper/engine/dimm_fit.py:65-71 | The stated maximum changes no placement over any sequence of offers. |
| `DimmFit.OfSorts` | src/homelab_helper/engine/dimm_fit.py:40-48 | A board starts with its sizes in ascending order, none lost; a stated maximum of zero is none. |
| `DimmFit.FullBoardSwapsItsLeast` | src/homelab_helper/engine/dimm_fit.py:50-64 | Only a full board refuses, when it is empty or its least DIMM is as large as the offer; otherwise that one is displaced. |
| `DimmFit.WarningsSay` | src/homelab_helper/engine/dimm_fit.py:52-71 | The warnings are exactly: slots not observed, and a total, once the DIMM is in, above the stated maximum of a board with DIMMs. |
| `DimmFit.UnobservedTakesAll` | src/homelab_helper/engine/dimm_fit.py:53-55 | With the slots never observed every offer is taken. |
| `Redaction.ScrubbedAlwaysIffSafe` | src/homelab_helper/secrets.py:192-196 | A secret is scrubbed from every text, whatever else is remembered and in whatever order, if and only if it neither starts nor ends with `*` nor holds `***`. |
| `Redaction.SafeNeverSurvives` | src/homelab_helper/secrets.py:192-196 | After every remembered secret has had its turn no safe one occurs in the text, overlaps and ties included. |
| `Redaction.NothingSafeIsCreated` | src/homelab_helper/secrets.py:194-195 | Replacing one secret never spells another safe one that was not in the text. |
| `Redaction.ReplaceScrubs` | src/homelab_helper/secrets.py:195 | Leftmost non-overlapping replacement removes every occurrence of a safe secret, overlapping ones too. |
| `Redaction.ReplaceFirst` | src/homelab_helper/secrets.py:195 | Replacement copies up to the first occurrence, puts `***` for it and goes on behind it; a text without one is left alone, so this decides every text. |
| `Redaction.OccursIff` | src/homelab_helper/secrets.py:195 | A secret occurs exactly where some suffix of the text starts with it. |
| `Redaction.UnsafeComesBack` | src/homelab_helper/secrets.py:195 | For any other secret, a text is built in which its own replacement spells it again. |
| `Redaction.UnchangedIffClean` | src/homelab_helper/secrets.py:192-196 | A text is returned unchanged if and only if no remembered secret occurs in it; otherwise it gets shorter. |
| `Redaction.RedactionIsIdempotent` | src/homelab_helper/secrets.py:192-196 | When all secrets are safe, redacting again changes nothing, even with ties broken another way. |
| `Secrets.LongerGoneAtTurn` | src/homelab_helper/secrets.py:194 | When a secret has its turn, no strictly longer safe one is left in the text. |
| `Secrets.SecretStore.Redact` | src/homelab_helper/secrets.py:192-196 | The text is what a longest-first order of the remembered set makes of it, without any safe secret, and unchanged exactly when clean. |
| `Secrets.SecretStore.SortedByLength` | src/homelab_helper/secrets.py:194 | Every remembered secret once, longest first. |
| `Secrets.SecretStore.ResolveSecret` | src/homelab_helper/secrets.py:156-177 | Nothing and the empty text pass through; a literal passes through and is remembered from 4 characters on; a cached reference answers without asking; a new one is looked up once, cached and remembered; a failure leaves the state as it was. |
| `Secrets.SecretStore.ForgetSecrets` | src/homelab_helper/secrets.py:199-202 | Cache and memory are both empty. |
| `Secrets.ResolvedOnce` | src/homelab_helper/secrets.py:165-177 | Over any run of calls without a forget, a reference that was resolved gives the same value again without asking, whatever changed outside. |
| `Secrets.MemoryGrows` | src/homelab_helper/secrets.py:151-177 | Without a forget the memory only grows and no cached value changes. |
| `Secrets.HandedOutIsKnown` | src/homelab_helper/secrets.py:151-177 | Every value of at least 4 characters handed out since the last forget is remembered. |
| `Secrets.HandedOutIsScrubbed` | src/homelab_helper/secrets.py:151-196 | Every safe value of at least 4 characters handed out since the last forget is absent from any redacted text. |
| `Secrets.Partition` | src/homelab_helper/secrets.py:53-55 | The text splits at its first colon and joins back to itself. |
| `Secrets.ReferenceForm` | src/homelab_helper/secrets.py:53-55 | A reference is `env`, `file` or `keyring`, a colon, and something after it. |
| `Secrets.EnvReferenceReads` | src/homelab_helper/secrets.py:142-148 | An `env:` reference reads the variable of the name after the colon, and fails when that is unset, empty, or a reference itself, saying which. |
| `Secrets.OtherReferencesAskTheirBackend` | src/homelab_helper/secrets.py:171-174 | Any other reference is what its back end answers for it. |
| `Fingerprint.CollideIffShifted` | src/homelab_helper/engine/fingerprint.py:20-34 | Two different identities share a fingerprint if and only if a pipe inside an id or a token can be read as the divider. |
| `Fingerprint.PayloadInjective` | src/homelab_helper/engine/fingerprint.py:20-34 | The fingerprint determines the identity as soon as the ids, or the tokens, are free of pipes. |
| `Findings.History` | src/homelab_helper/engine/category_findings.py:104-172 | Any sequence of raises and clears of one row: no row before the first raise; open exactly when the last event is a raise, else resolved; `first_seen` begins the current stretch, `last_seen` is the last raise, `resolved_at` the first clear after it. |
| `Findings.FindingTable.Upsert` | src/homelab_helper/engine/category_findings.py:106-145 | Inserts an open row or raises the one that is there: a resolved one reopens now, any other keeps status, first sighting and resolution time; what the operator wrote is kept; the report is taken over; no other row moves. |
| `Findings.FindingTable.Resolve` | src/homelab_helper/engine/assertions.py:487-505 | Resolves the row exactly when it exists and is open or acknowledged; no other row moves. |
| `Findings.FindingTable.Operate` | src/homelab_helper/mcp_server.py:1454-1506 | What each of the three verbs sets and that it leaves every other field; acknowledging or suppressing a resolved finding leaves its `resolved_at`; an empty note replaces nothing. |
| `Findings.AffectSays` | src/homelab_helper/engine/category_findings.py:113-145 | The effect of a raise and of a clear on one row, field by field, for all writers. |
| `CategoryFindings.PassOutcome` | src/homelab_helper/engine/category_findings.py:94-173 | A whole pass is a plain update of each row. A listed finding ends open or as it was, unless it was resolved, with the severity, title cut to 512, description, targets and evidence of the last issue that lists it, and with what the operator wrote kept; an unlisted open or acknowledged one of the kind whose recorded category, and when targets are given one of whose targets, was observed ends RESOLVED; every other row is what it was. |
| `CategoryFindings.PassEffect` | src/homelab_helper/engine/category_findings.py:94-173 | The same as one event: the last issue raised, or a clear, or nothing. |
| `CategoryFindings.CategoryIsRecorded` | src/homelab_helper/engine/category_findings.py:72-76 | The category of a row is that of the first evidence entry of that type. |
| `CategoryFindings.FingerprintSays` | src/homelab_helper/engine/category_findings.py:46-48 | Kind, target type, target id and category make the fingerprint, in that order. |
| `CategoryFindings.ReconcileCategoryFindings` | src/homelab_helper/engine/category_findings.py:79-174 | The two loops move every row as that update says, and the result lists name exactly what was opened, reopened and resolved, each once, and every refresh. |
| `CategoryFindings.UpsertIssues` | src/homelab_helper/engine/category_findings.py:97-145 | The first loop: a row added earlier in the pass is seen by later lookups, so a fingerprint listed twice opens once. |
| `CategoryFindings.LastIssueWins` | src/homelab_helper/engine/category_findings.py:97-145 | Listing a finding several times in a pass is the same as listing it once with what was said last. |
| `CategoryFindings.PassIsRaisesThenClear` | src/homelab_helper/engine/category_findings.py:96-172 | The resolve loop sees the rows the upsert loop left, and still the pass is the per-row update: the loops do not interfere. |
| `CategoryFindings.RepeatIsQuiet` | src/homelab_helper/engine/category_findings.py:94-173 | The same pass again opens, reopens and resolves nothing and only moves `last_seen` of what it lists. |
| `ArgoCdDrift.ReconcileArgoCdDrift` | src/homelab_helper/engine/argocd_drift.py:111-173 | Every row ends as the reports of its application make it, in order, and each of the four lists holds exactly the names that came under its heading, once for each report that did. |
| `ArgoCdDrift.AbsentIsUntouched` | src/homelab_helper/engine/argocd_drift.py:121-169 | An application that was not reported keeps its finding as it was: absence never resolves. |
| `ArgoCdDrift.ReportOutcome` | src/homelab_helper/engine/argocd_drift.py:121-169 | A drifting application ends with an open row, or the one it had, carrying the report, its severity by health; one that does not drift has its open or acknowledged row resolved. |
| `ArgoCdDrift.DriftedIff` | src/homelab_helper/adapters/argocd.py:130-141 | Drifted is a sync status other than Synced or a health status other than Healthy, a missing one counting as neither. |
| `ArgoCdDrift.HeadingSays` | src/homelab_helper/engine/argocd_drift.py:128-169 | Which list a report goes to, by whether it drifts and by the status it finds. |
| `ArgoCdDrift.SummaryTells` | src/homelab_helper/engine/argocd_drift.py:121-169 | The lists built report by report contain what the row found by each report says: opened without a row, reopened on a resolved one, updated on any other, resolved when a healthy report finds it unresolved. |
| `ArgoCdDrift.DistinctFindWhatWas` | src/homelab_helper/engine/argocd_drift.py:125-126 | With every application reported once, each report finds the row from before the pass, so the lists are about the table as it was. |
| `ArgoCdDrift.AppearsOnce` | src/homelab_helper/engine/argocd_drift.py:126-148 | However often an application is reported, its finding is opened once. |
| `Assertions.AssertionEngine.RunAssertion` | src/homelab_helper/engine/assertions.py:370-505 | One run is logged, FAIL raises and PASS clears the assertion's one row, ERROR and SKIP leave the table alone, and the three flags say which of it happened. |
| `Assertions.RunOutcome` | src/homelab_helper/engine/assertions.py:432-505 | FAIL raises the row with the assertion's severity, name, description and targets, and on a row that was there with what the verifier looked at; PASS resolves an open or acknowledged row; ERROR and SKIP change nothing. |
| `Assertions.FingerprintSays` | src/homelab_helper/engine/assertions.py:342-356 | The fingerprint is made of the scope, the target or "global", and the name. |
| `Bottlenecks.PersistBottlenecks` | src/homelab_helper/engine/bottlenecks.py:316-399 | Every row ends as the hits under its fingerprint and the clearing of undetected analyzer rows make it; rows without the analyzer tag are never cleared; opened and reopened hold the subjects of first hits on absent and on resolved findings, updated those of all other hits. |
| `Bottlenecks.ResolveUndetected` | src/homelab_helper/engine/bottlenecks.py:373-395 | Exactly the undetected unresolved rows of the analyzer's kinds that carry its tag are resolved, and their titles returned once each. |
| `Bottlenecks.DetectedOutcome` | src/homelab_helper/engine/bottlenecks.py:330-372 | A detected finding's row was raised and says what its last hit says, mitigations included. |
| `Bottlenecks.UndetectedOutcome` | src/homelab_helper/engine/bottlenecks.py:373-395 | An undetected row is resolved when it is open or acknowledged, of one of the two kinds and carries the analyzer's tag, and otherwise left alone. |
| `Bottlenecks.HeadingSays` | src/homelab_helper/engine/bottlenecks.py:342-364 | Which list a hit goes to, by whether it is the first on its finding and by the row from before the pass. |
| `Bottlenecks.SummaryTells` | src/homelab_helper/engine/bottlenecks.py:328-372 | The lists built hit by hit are about the table as it was: only the first hit on a finding can open or reopen it. |
| `Lifecycle.RunIsItsRelevantSteps` | src/homelab_helper/engine/category_findings.py:97-172 | Over any interleaving of the four writers and the operator in which no writer writes under the fingerprint of another's finding, what becomes of a row depends only on its owner's steps of its own kind and the operator's on it. |
| `Lifecycle.RunKeeps` | src/homelab_helper/engine/category_findings.py:97-172 | Throughout any run whatever, collisions and forged evidence included, a row is never deleted, RESOLVED always has `resolved_at`, and a suppressed row stays so until the operator acts. |
| `Lifecycle.OthersLeaveItAlone` | src/homelab_helper/engine/bottlenecks.py:328-395 | A step of another writer, or of another kind, leaves a row exactly as it is, provided it does not write under its fingerprint and, under an analyzer kind, does not forge the analyzer's tag. |
| `Lifecycle.StepKeeps` | src/homelab_helper/engine/argocd_drift.py:121-169 | Every step keeps the row and its resolution time; only the operator lets a suppressed finding go. |
| `Lifecycle.StepKeepsOwned` | src/homelab_helper/engine/category_findings.py:97-145 | A step keeps a row of its owner's kind and without another writer's tag. |
| `Lifecycle.Perform` | src/homelab_helper/engine/assertions.py:402-408 | Running any step through its method moves every row as the per-row model says, so the run theorems speak of the methods. |
| `Lifecycle.ForgedTagIsTaken` | src/homelab_helper/engine/bottlenecks.py:373-395 | After any pass that lists a finding, whatever its row and whatever is detected, a bottleneck pass changes the row if and only if it is unresolved, of an analyzer kind, and its evidence as last listed forges the analyzer's tag: what the non-interference theorems exclude is what breaks them. |
| `Lifecycle.ExactUnlessTimeIsLeft` | src/homelab_helper/mcp_server.py:1461-1506 | From a row that has `resolved_at` exactly when it is RESOLVED, a step leaves such a row if and only if it is not the operator acknowledging or suppressing it while it is resolved. |
| `Lifecycle.RunIsExactIffNoTimeIsLeft` | src/homelab_helper/mcp_server.py:1461-1506 | Throughout a run RESOLVED and having `resolved_at` are the same if and only if no such gesture occurs in it. |
| `Lifecycle.AcknowledgedKeepsItsTime` | src/homelab_helper/mcp_server.py:1461-1466 | The failing case: a finding resolved by hand at 1 and acknowledged at 2 still says it was resolved at 1. |
| `Lifecycle.AssertionsInterfereIffTheyCollide` | src/homelab_helper/engine/assertions.py:402-408 | One assertion's runs leave another's finding alone, whatever they find, if and only if the two fingerprints differ. |
| `Lifecycle.PlainStepsNeverCollide` | src/homelab_helper/engine/fingerprint.py:20-34 | A step whose root causes are free of pipes writes nothing else under the fingerprint of a finding whose root cause is: the condition of the run theorems holds for everything but assertions named with a pipe. |
| `Histories.AssertionHistory` | src/homelab_helper/engine/assertions.py:370-505 | Whatever the other writers do in between, an assertion's finding exists once there was a FAIL, is open exactly when the last verdict was FAIL, and `first_seen` is the first FAIL since the last PASS, counting the verdicts of every assertion that shares its fingerprint. |
| `Histories.AloneMeansOwnVerdicts` | src/homelab_helper/engine/assertions.py:402-408 | Unless another assertion of the run collides with it, those are the verdicts of its own runs. |
| `Histories.CollidingAssertions` | src/homelab_helper/engine/assertions.py:394-410 | Two global assertions that collide: the PASS of one resolves the finding of the other, whose own last verdict was FAIL. |
| `Histories.RunIsVerdicts` | src/homelab_helper/engine/assertions.py:402-408 | The whole interleaved run reduces to the FAIL and PASS verdicts under that fingerprint. |
| `Histories.CategoryHistory` | src/homelab_helper/engine/category_findings.py:79-174 | Of a finding nothing else is written under: it is open exactly when the latest pass that listed it, or observed its category and a recorded target without listing it, was a listing one; `first_seen` is the time of the pass that began the current stretch; other passes do not count. |
| `Histories.ListingStep` | src/homelab_helper/engine/category_findings.py:97-145 | A listing pass leaves the row open with its category and affected targets recorded, and resets `first_seen` exactly when it was not open. |
| `Histories.UnlistedStep` | src/homelab_helper/engine/category_findings.py:161-172 | Any other step resolves the row exactly when it settles the last listing, and otherwise leaves it as it is. |
| `NetBoxSync.ConvergesIffCanonical` | src/homelab_helper/adapters/netbox.py:457-508 | A sync converges if and only if beforehand every discovered item of the device had a name of its own. |
| `NetBoxSync.ConvergedShowsPlacements` | src/homelab_helper/adapters/netbox.py:651-657 | Converged means: every discovered item equals the last placement of its slot in name, part id, serial and description, and every slot has exactly one. |
| `NetBoxSync.SecondRunIsQuiet` | src/homelab_helper/adapters/netbox.py:485-508 | A second run on converged items reports every slot unchanged and leaves every item as it is. |
| `NetBoxSync.SyncInventoryItems` | src/homelab_helper/adapters/netbox.py:457-508 | A slot is unchanged exactly when the item of its name already showed name, part id, serial and description of its last placement, updated when not; created are the slots without an item, deleted the unclaimed rest, each once; a dry run gives the same lists and writes nothing. Items a person entered and items of other devices come through as they were. Afterwards every discovered item shows the last placement of its slot on all those fields, one item for each slot, exactly when each discovered item had a name of its own before. |
| `NetBoxSync.UpsertSlots` | src/homelab_helper/adapters/netbox.py:484-497 | Exactly the missing slots are created and the stale ones patched, in slot order; nothing else moves. |
| `NetBoxSync.DeleteUnclaimed` | src/homelab_helper/adapters/netbox.py:499-506 | Exactly the indexed items whose name is not desired are deleted. |
| `NetBoxSync.IndexByName` | src/homelab_helper/adapters/netbox.py:479-482 | Each name of a discovered item leads to one item of that name. |
| `NetBoxSync.BuildDesired` | src/homelab_helper/adapters/netbox.py:475-477 | Every slot once, and with it the payload of the last placement that names it. |
| `NetBoxSync.LastPlacementDecides` | src/homelab_helper/adapters/netbox.py:475-477 | A slot is desired exactly when a placement names it, and the last that does decides. |
| `NetBoxSync.PayloadSays` | src/homelab_helper/adapters/netbox.py:660-702 | The name is the slot; the part id is manufacturer and model with a space between when both are given, else the one given; the serial is the serial or else the WWID; both are cut to NetBox's 50 characters, the last an ellipsis. |
| `WorkloadUsage.WorkloadUsage` | src/homelab_helper/adapters/kubernetes.py:377-439 | One row for every workload with a running pod, strictly ascending by namespace, then kind, then name, each the sum over its pods. |
| `WorkloadUsage.RowsShow` | src/homelab_helper/adapters/kubernetes.py:398-438 | A row shows the number of its running pods and what they use, and of CPU limit, CPU request and memory limit the sum over their containers, or nothing when one of them does not say. |
| `WorkloadUsage.ReportConserves` | src/homelab_helper/adapters/kubernetes.py:397-439 | The pods, CPU and memory fields of the rows of a report add up to those of all counted pods: nothing lost or counted twice. |
| `WorkloadUsage.PodOrderIrrelevant` | src/homelab_helper/adapters/kubernetes.py:397-439 | Permuting the pods gives the same rows. |
| `WorkloadUsage.UnknownIffUnset` | src/homelab_helper/adapters/kubernetes.py:422-437 | A limit or request of a row is unknown if and only if some container of some running pod of the workload leaves it unset. |
| `WorkloadUsage.Accumulate` | src/homelab_helper/adapters/kubernetes.py:397-433 | The dictionary holds exactly the workloads with a counted pod, each with its sum. |
| `WorkloadUsage.AddPod` | src/homelab_helper/adapters/kubernetes.py:418-433 | A pod adds its usage and its containers' resources to the row it is given, whatever is in it already. |
| `WorkloadUsage.CollectMetrics` | src/homelab_helper/adapters/kubernetes.py:388-396 | Each key holds the sum over the containers of the last entry that has it, missing values counting as zero. |
| `WorkloadUsage.LastMetricCounts` | src/homelab_helper/adapters/kubernetes.py:388-396 | A key is there exactly when an entry has it, and the last that does decides. |
| `WorkloadUsage.ReplicaSetPodBelongsToDeployment` | src/homelab_helper/adapters/kubernetes.py:359-374 | A pod whose first usable owner, anywhere in the list, is the ReplicaSet `name-hash` belongs to the Deployment `name`. |
| `WorkloadUsage.FirstOwnerDecides` | src/homelab_helper/adapters/kubernetes.py:364-374 | The first owner of a known kind that has a name decides the workload; those before it are passed over. |
| `WorkloadUsage.NoOwnerNoWorkload` | src/homelab_helper/adapters/kubernetes.py:359-374 | A pod without a usable owner belongs to no workload. |
| `WorkloadUsage.OwnersSay` | src/homelab_helper/adapters/kubernetes.py:356-371 | The three owner kinds and what each stands for; only a ReplicaSet named with the hash loses it. |
| `WorkloadUsage.UsageAdds` | src/homelab_helper/adapters/kubernetes.py:391-396 | Usage adds up over containers. |
| `StringOrder.LessAtFirstDifference` | src/homelab_helper/adapters/kubernetes.py:439 | The first place where two names differ decides their order, a proper prefix coming first. |
| `WorkloadUsage.SortedKeys` | src/homelab_helper/adapters/kubernetes.py:439 | Every key once, in strictly ascending order. |
| `WorkloadUsage.TotalOfMultiset` | src/homelab_helper/adapters/kubernetes.py:397-433 | A workload's sum depends on its pods as a multiset only. |
| `Digest.DigestsTile` | src/homelab_helper/engine/digest.py:157-178 | However often and by whomever digests are asked for without an override, and whatever the clock says, every instant from the first start to the latest end is in exactly one recorded window and no other instant in any. |
| `Digest.OverrideTilesIffItMeets` | src/homelab_helper/engine/digest.py:168-170 | For any log that tiles an interval and any `days`, zero and negative included, an override keeps the tiling if and only if: the log is empty; or it reports nothing yet and the window, if it holds anything, does not end before the latest end; or a positive override begins where the last digest ended or ends where the first began; or one that holds nothing does not lie after the last. |
| `Digest.RunTilesIffOverridesMeet` | src/homelab_helper/engine/digest.py:157-178 | Over any run, overrides and daemon ticks mixed, the log tiles after every tick if and only if every recorded override met it in that sense. |
| `Digest.DaemonNeverStreams` | src/homelab_helper/cli/daemon.py:159-184 | In daemon-only runs every recorded window is at least 6 days long, so without an override there are never more digests than six-day spans. |
| `Digest.LogFollowsHistory` | src/homelab_helper/engine/digest.py:157-178 | The latest end of the recorded rows is the latest end of the folded windows, so the tiling speaks of the methods. |
| `Digest.DigestLog.ResolveWindow` | src/homelab_helper/engine/digest.py:164-178 | The override in days of 86400 seconds, a week without a previous digest, else from the latest recorded end, empty for a clock that went back. |
| `Digest.DigestLog.LastDigest` | src/homelab_helper/engine/digest.py:157-161 | A recorded run with the latest end, or none exactly when nothing was recorded. |
| `Digest.DigestLog.RunDigestPass` | src/homelab_helper/cli/daemon.py:159-188 | Below 6 days nothing is recorded; from there on exactly one run is, however the delivery goes; the windows of the log move as the run theorems have it. |
| `Digest.DigestLog.SendDigest` | src/homelab_helper/cli/digest.py:92-138 | A digest sent by hand records its window however the delivery goes. |
| `Digest.DigestLog.RecordDigest` | src/homelab_helper/engine/digest.py:453-467 | One row with the window is appended. |
| `Digest.OutcomeSays` | src/homelab_helper/cli/daemon.py:169-184 | A quiet digest is sent only when asked for; what is recorded of each outcome. |
| `TalosStream.RoundTrip` | src/homelab_helper/adapters/talos.py:66-89 | Any list of JSON objects, printed with any whitespace around and between them, parses back to itself in order. |
| `TalosStream.MalformedTail` | src/homelab_helper/adapters/talos.py:66-89 | With something undecodable after k objects, exactly those k are returned. |
| `TalosStream.OtherValuesAreSkipped` | src/homelab_helper/adapters/talos.py:84-88 | A value that is no object is passed over and does not end the parse. |
| `TalosStream.StripSays` | src/homelab_helper/adapters/talos.py:76 | Stripping takes all whitespace off both ends and nothing else. |
| `TalosStream.ParseResourceStream` | src/homelab_helper/adapters/talos.py:66-89 | The loop ends, since the index advances, with the objects of the stripped text up to the first failure. |
| `TalosStream.ParsePrinted` | src/homelab_helper/adapters/talos.py:78-88 | From the start of a printed list the parser finds exactly its objects and then whatever it makes of the tail. |
| `Capacity.AfterLastStep` | src/homelab_helper/engine/capacity.py:95-109 | The segment is the longest suffix whose neighbours all differ by less than a tenth of the total; it is proper exactly when a step time is given, which is then its first timestamp, and the jump into it is at least a tenth. |
| `Capacity.SuffixIsLongest` | src/homelab_helper/engine/capacity.py:105-109 | Cutting at the last step gives the longest step-free suffix: every longer one holds that step. |
| `Capacity.CuttingTwiceIsCuttingOnce` | src/homelab_helper/engine/capacity.py:95-109 | The segment is unique, and cutting it again cuts nothing and reports no step. |
| `Baselines.Sustained` | src/homelab_helper/engine/baselines.py:123-131 | The length of the maximal trailing run past the line. |
| `Baselines.MetricIssue` | src/homelab_helper/engine/baselines.py:110-168 | A metric is judged with 336 hours and the last 3 on top and a band. It is reported exactly when all of the last three values are at least half above p95 and the floor above it, or, for CPU and network with p10 no lower than the floor, at most half of p10; with that direction and line, the length of the run, and medium severity from 6 hours on. |
| `Baselines.DepartureSays` | src/homelab_helper/engine/baselines.py:110-120 | The same of the departure itself. |
| `Baselines.SubjectIssues` | src/homelab_helper/engine/baselines.py:134-219 | A subject with too little or stale history says nothing; otherwise every departure of a judged metric is reported and nothing else, and the judged categories are exactly those of the judged metrics. |
| `Baselines.NeverBothWays` | src/homelab_helper/engine/baselines.py:110-120 | Where a lower line is drawn at all, recent values cannot be past both lines. |
| `Baselines.AnomalyIsSound` | src/homelab_helper/engine/baselines.py:110-219 | A reported anomaly has lasted at least `DEPARTURE_HOURS`, its category is among those judged, and its metric has not departed the other way. |
| `Baselines.Evaluate` | src/homelab_helper/engine/baselines.py:242-274 | Issues are only about judged subjects, with what else those affect, in observed categories; every observed category comes from a judged subject; every departure of a judged metric, above or below, has its issue, with its target, category, severity and cluster. |
| `Baselines.ReconcileAnomalyFindings` | src/homelab_helper/engine/baselines.py:277-290 | The reconcile is the category pass narrowed to the judged subjects, which are hosts, workloads and guests and affect nothing besides but clusters. |
| `Baselines.UnjudgedKeepsFindings` | src/homelab_helper/engine/baselines.py:242-290 | After any run of reconciles, other writers and operators from an empty table, a reconcile that does not judge a subject leaves its findings exactly as they were. |
| `Baselines.RunKeepsShape` | src/homelab_helper/engine/baselines.py:253-274 | Over any such run an anomaly finding records its own target and clusters, nothing else. |
| `Baselines.GroundedIsSound` | src/homelab_helper/engine/baselines.py:253-274 | What an evaluation hands to the reconcile is always of the form the run theorem needs. |
| `Baselines.FloorSays` | src/homelab_helper/engine/baselines.py:46-64 | The metrics and the floor of each. |
| `Baselines.CategoriesSay` | src/homelab_helper/engine/baselines.py:160-162 | A judged metric puts its above category under observation, CPU and network their below category too. |
| `Baselines.AssessableIff` | src/homelab_helper/engine/baselines.py:146-151 | A subject is spoken of with 339 samples, the newest at most six hours old. |
| `Baselines.SubjectSays` | src/homelab_helper/engine/baselines.py:253-266 | A known host goes by its id, a guest with its cluster when that is known. |
| `Baselines.LastSlashDivides` | src/homelab_helper/engine/baselines.py:263 | The cluster of a guest is what precedes the last slash of its key. |
| `AssertionLibrary.ReloadIsQuietIffConsistent` | src/homelab_helper/engine/assertion_library.py:108-124 | Reloading the same library reports every valid entry unchanged if and only if no two valid entries of one name disagree. |
| `AssertionLibrary.ReloadChangesNothing` | src/homelab_helper/engine/assertion_library.py:108-124 | A reload always leaves the table as the first load left it. |
| `AssertionLibrary.LoadedByLast` | src/homelab_helper/engine/assertion_library.py:119-121 | Each name ends with the fields of its last valid entry, and names without one are untouched. |
| `AssertionLibrary.DryRunForetellsIff` | src/homelab_helper/engine/assertion_library.py:227-245 | A dry run says of an entry what the load says of it if and only if the entry is invalid, or has no earlier valid entry of its name, or the name is in the table and the last of those agrees with the entry exactly when the row does. |
| `AssertionLibrary.DryRunForetells` | src/homelab_helper/engine/assertion_library.py:206-245 | When that holds of every entry the two reports are the same. |
| `AssertionLibrary.DistinctIsForetold` | src/homelab_helper/engine/assertion_library.py:206-245 | It holds of an entry whose name no earlier valid entry has, so distinct names are enough. |
| `AssertionLibrary.DryRunRepeatsCreated` | src/homelab_helper/engine/assertion_library.py:233-245 | In any list, of any two valid entries of one new name a dry run announces two creations, and the load does not create at the second. |
| `AssertionLibrary.ReportPartitions` | src/homelab_helper/engine/assertion_library.py:206-245 | The names in created, updated, unchanged and skipped together are those of the entries, each as often as it occurs. |
| `AssertionLibrary.AssertionTable.LoadLibraryEntries` | src/homelab_helper/engine/assertion_library.py:108-124 | The report and the table after all entries, and no write at all in a dry run. |
| `AssertionLibrary.AssertionTable.LoadOne` | src/homelab_helper/engine/assertion_library.py:206-245 | An invalid entry is skipped with its reason; a valid one is created, unchanged or updated by what is in its row, and unless it is a dry run its fields are written there; nothing else moves. |
| `AssertionLibrary.ValidIff` | src/homelab_helper/engine/assertion_library.py:127-203 | Exactly which entries are loaded. |
| `AssertionLibrary.FirstFaultIsTheReason` | src/homelab_helper/engine/assertion_library.py:127-216 | Of several faults the first in the program's order is the reason given. |
| `AssertionLibrary.FieldsSay` | src/homelab_helper/engine/assertion_library.py:137-203 | Which column each part of a loaded entry goes to, and the defaults. |

## Left out

What the model takes as given:

- SHA-256: the digest is taken to be injective on the joined payload, so a fingerprint is that payload under a constructor.
- Floating point: CPU, ratios and percentile lines are exact reals, the ten percent step is integer arithmetic; rounding is not modelled.
- The JSON decoder is a parameter: it advances, and an object's text ends with its brace whatever follows.
- The `age`, `sops`, keyring and file back ends of secrets are one partial map from references to values that may differ at every call.
- The database engine: constraints are enforced after every statement, inserts of a batch one row at a time; columns are text.
- A source scan yields every row once in any order, and the source is counted a second time independently, so a write in between shows up.
- Percentiles are a parameter with p10 <= p50 <= p95 only; Kubernetes quantities are given as numbers.
- Outcomes of assertion verifiers, bottleneck detectors and digest deliveries are inputs.

What is not there:

- NetBoxSync.SyncInventoryItems: every HTTP call succeeds; a failure part-way is not modelled, though convergence is proved from any state with named items, so a later run completes it. The formatted description is given.
- NetBoxSync.SecondRunIsQuiet: `sync_cluster_vms` is left out; its no-op law does not hold for a guest without stated CPU or memory.
- Baselines.Evaluate: issue titles, descriptions, labels and evidence numbers are short placeholders.
- CategoryFindings.ReconcileCategoryFindings: the lists of titles and the sorted list of observed categories; only the lists by fingerprint are there.
- Digest.DigestLog.SendDigest: the dry run, which records nothing.
- Digest.DigestLog.RunDigestPass: a crash between delivery and commit, and the contents of a digest.
- Findings.FindingTable.Operate: looking a finding up by a unique prefix, and the expiry of a suppression, which no writer here acts on.
- Assertions.AssertionEngine.RunAssertion: the order of what is recorded of a verifier's evidence, choosing the verifier, the architecture scope and the duration of a run.
- Capacity: fitting the trend and its findings, which go through the category pass without targets, so their protection is per category.
- Other writers of findings, such as the hardware reconciler and the stray-configuration check.
- `wait_for_tag` and `image_with_tag` (Talos): short and without an invariant.
- Command line, MCP plumbing, rendering, chat, and the adapters' network traffic.
- Trust gate, executor, escalation, maintenance, rebalance and playbooks.
