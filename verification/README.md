# Portal verification

A Dafny 4.11 model of the parts of the sales portal whose correctness is an exact claim, with proofs of those claims. `dafny verify dfyconfig.toml` checks all of it.

Five components are modelled, each in the form its code has: loops and in-place state as methods and classes, everything else as functions.

**Lead ingest** (`Cells`, `OrderedDict`, `Columns`, `RawRows`, `Sheets`, `Leads`, `LeadImport`, `LeadJob`, `Split`). A BIFF record stream becomes rows in a reused buffer (`RawRows.IterRawRows`), is narrowed and named (`Columns`, `Sheets`), mapped to leads (`Leads`), buffered in chunks, de-duplicated and upserted with one commit per chunk (`LeadJob.RunLeads`). The specification everything is measured against is small: read the sheet once at full width (`Sheets.OnePass`), then upsert row by row, last row wins (`LeadImport.UpsertAll`). `LeadJob.ImportLeads` joins the two ends: for any record stream, starting table and list of interruptions, the job ends in exactly that table.

**Corrections** (`Normalize`, `Premiums`, `Calendar`, `TeamScope`, `Records`, `Corrections`, `CorrectionRuns`, `CorrectionTheorems`, `Submissions`, `CorrectionWitnesses`). Submitting, resubmitting, withdrawing and deciding are functions on one shared state (records, version rows, requests, timeline, roster), and a run is any sequence of them with the roster, pins, closed months, accounts and the last plausible issuance day changing at any moment between steps. Every normalizer works on the text itself, `normalizeMoney` and `normalizeDate` included, and a premium column keeps what `numeric(18,2)` keeps and prints it its own way. `CorrectionRuns.Inv` is the invariant of all runs; `CorrectionTheorems` states what a reader of the portal may rely on, and `Submissions` which submissions and answers are accepted, on which record they are filed, and what each step leaves, from the tables and the form alone.

**The approval engine** (`Workflow`, `Authority`, `WorkflowWitnesses`, `Bulk`, `Portal`). A decision is first any step from PENDING or VERIFIED; `Workflow` then models the real ladder of rungs, who each rung resolves to, and the two reroutes that rewrite an open rung, and proves each of its steps to be a step of the portal or none, so everything proved of runs holds of the engine's. `Authority` says who may decide each rung from its key and configuration alone, and that over every run each signature is of somebody who might. `Bulk` decides a batch through that engine and the adapters above it, which throw after the engine has committed when the outcome is not the one they expected. `Portal.Tables` holds the same tables as mutable fields, ladders included, and each of its methods is proved to do what the function says, leaving every table as it was when it refuses.

**Performance figures** (`Money`, `Sorting`, `JsSet`, `Performance`, `Peers`). Outcomes, grouping at three rungs, money as text and as paise, ranking. Rates are exact fractions.

**Queue ageing** (`Ageing`).

`Wrappers`, `Text` and `Decimal` are shared helpers: options and results, trimming and case mapping, decimal numerals.

## Where the code does less than its comments say

Each of these is stated as an exact condition over all inputs, with a concrete witness where the failure is not plain from the condition.

- `build_columns` promises unique names; it delivers them exactly when no header that occurs once equals a name it generates for another column (`Columns.DistinctExactlyWithoutClash`).
- When a sheet has no row at the header's number, the row the names are taken from is also streamed as data (`Sheets.HeaderStreamedAsData`).
- Writing a sheet out and reading it back gives the same rows exactly when no row that runs past its header is blank in the last named column (`Split.SplitRoundTrip`).
- `actorBooks` is described as the set a manager reads by; it is smaller by the manager's own code whenever that code has no roster row (`TeamScope.BooksAreScopeExactly`).
- `normalizeSmId` is not idempotent (`Normalize.SmIdNotIdempotent`); submission applies it twice, and what is accepted is stable (`Normalize.SmIdTwiceIsStable`).
- An approval is said to write the value that was proposed. Under OTHERS, and under no other category, it may not (`CorrectionTheorems.AppliedIsProposedExactly`): an identifier that normalizes to a sentinel clears the column (`CorrectionWitnesses.IdentifierIsLost`); an amount with a leading zero or a minus sign is kept without it, so `007` proposed where `7.00` stands is approved and changes nothing (`CorrectionWitnesses.AmountIsReprinted`); a date in a year past 9999 is accepted, stored as a text that is no date, and never applies (`CorrectionWitnesses.FarDateIsStuck`); an amount of more than sixteen whole digits is accepted and its column never takes it (`CorrectionWitnesses.AmountIsStuck`). The last is the one failure the approver's preview does not show (`Records.PreviewPredictsApply`).
- `smName` is said never to be a target a submitter picks; OTHERS admits it, and then the record's name leaves the roster's (`CorrectionTheorems.NameAgreesExactly`, `CorrectionWitnesses.NameLeavesRoster`).
- A submission of the value already held is refused; a resubmission of it is not (`CorrectionWitnesses.ResubmissionMayChangeNothing`), and the request alone tells whether its approval will change anything (`CorrectionTheorems.ApprovalChangesExactly`).
- A request's rungs are said to be frozen at submission, and a rung marked `distinctActor` to need a second pair of eyes. A reroute of an open rung replaces its configuration, which handing it to another person always strips of the mark, and an administrator clearing a rung that resolved to nobody is not asked. Those are the only two ways (`Workflow.AppliedClearedEveryRung`, `Workflow.SecondSignaturePossibleExactly`), and both occur (`WorkflowWitnesses.OneSignerOnBothRungs`, `WorkflowWitnesses.OneAdministratorOnBothRungs`).
- A bulk report's `succeeded` is described as the ids that committed; others commit too. An approval below the last rung, or a verification at it, is committed and then reported as a failure (`Bulk.CommittedExactly`, `WorkflowWitnesses.ApprovedBelowTheTop`, `WorkflowWitnesses.VerifiedAtTheTop`), and a batch is what its successes make of the tables exactly when it holds no such request (`Bulk.BulkIsItsSuccessesExactly`).
- A pin for a code without a roster row moves that code's sales onto the pinned manager's row but not into their read scope (`Performance.CountedIsReadExactly`).
- The three age counts sum to the queue depth exactly when no request is dated ahead of the clock (`Ageing.DepthExactly`).
- The summed total of a scope with no amounts reads `0.00`, the ungrouped aggregate `0` (`Performance.TotalTextExactly`).

## Model

| member | source | states |
|---|---|---|
| Cells.TrimTrailingBlanks | ingest/app/workbook.py:63-76 | the loop keeps exactly the prefix that ends in the last non-blank cell |
| Cells.TrimmedUnique | ingest/app/workbook.py:67-76 | any prefix that ends populated and drops only blanks is the one the loop returns |
| Columns.BuildColumns | ingest/app/workbook.py:98-135 | the three passes name each column by its header, its place among equal headers, or its position |
| Columns.SuffixedInjective | ingest/app/workbook.py:120-134 | a repeated header's generated name decodes to one header and one occurrence |
| Columns.PlaceholderIsNotSuffixed | ingest/app/workbook.py:110-134 | a blank column's placeholder is never a repeated header's generated name |
| Columns.DistinctExactlyWithoutClash | ingest/app/workbook.py:98-135 | the names are distinct if and only if no header occurring once equals a generated name |
| Columns.RenamingIsIdentity | ingest/app/workbook.py:98-135 | distinct names, used as a header row, come back as themselves |
| Columns.NarrowingOrderMatters | ingest/app/workbook.py:79-96 | cutting before naming equals cutting after it if and only if nothing past the cut repeats a header that occurs once before it |
| Columns.NamesExactly | ingest/app/workbook.py:98-135 | the text of every name: the header if it occurs once, the header with its place among its equals in parentheses if not, its position in the sheet if it is blank |
| Columns.FirstTwoRepeats | ingest/app/workbook.py:120-134 | the first of equal headers is numbered 1 and the second 2 |
| Columns.HeadersExactly | ingest/app/workbook.py:98-118 | a header is its cell's text without the white space around it, up to the last cell that has any |
| RawRows.IterRawRows | ingest/app/workbook.py:231-297 | the reused row buffer yields each row once, with the last value written to each cell and a fresh buffer per row |
| RawRows.NarrowIsTruncatedWide | ingest/app/workbook.py:231-297 | for every record stream, reading at a width is reading at a greater width and cutting: same rows, same numbers, exactly the first cells |
| RawRows.ReadByRecords | ingest/app/workbook.py:231-297 | for every record stream: a row for each record that starts one before the data ends, in the order of the stream and under its number, and in each cell the last value written to that column before the next row starts |
| Sheets.ContiguousWidth | ingest/app/workbook.py:79-96 | the width is the run of non-blank header cells from the left, and no other width is |
| Sheets.WidthUnique | ingest/app/workbook.py:79-96 | that description fixes the width |
| Sheets.KeyRow | ingest/app/workbook.py:353-364 | the loop over a row's cells leaves a dict whose keys are the names in the order they first occur, each with the last cell under it |
| Sheets.KeyedIsLastUnderName | ingest/app/workbook.py:353-364 | for any columns, repeated names included: the keys are the distinct names in first-seen order, and each name holds the last cell it heads |
| Sheets.ReadHeader | ingest/app/workbook.py:328-345 | the first pass stops at the header's row or the first row past it, and takes width and names from there |
| Sheets.StreamLeads | ingest/app/workbook.py:300-371 | the two narrow passes yield the rows past the header's number that say something inside the table, each once, in the order of the sheet, each holding its own cells under the table's names; the same as one wide pass |
| Sheets.OnePassInOrder | ingest/app/workbook.py:300-371 | the same of the one wide pass: strictly increasing places among the sheet's rows, exactly those of rows that qualify, and the cells of the row at each |
| Sheets.BodyInOrder | ingest/app/workbook.py:347-364 | the body alone, for any rows and any header |
| Sheets.HeaderStreamedAsData | ingest/app/workbook.py:328-364 | the header row is streamed as data if and only if no row has the header's number and the stand-in names something |
| Sheets.ReadSheet | ingest/app/workbook.py:181-228 | the grid reader refuses the lead sheet, fails on a row number that lies before the grid, and otherwise names the columns from the header row and returns the rows below it that say something, in order, each holding its own cells, up to the cap, with the count of all of them; a row number below 1 counts from the end |
| Sheets.GridInOrder | ingest/app/workbook.py:211-219 | the keyed rows of a grid are its rows that say something, each once and in order, with their own cells under the columns' names |
| Split.SanitizeKeepsExactlyClean | ingest/app/split.py:123-157 | writing changes a text if and only if it holds a character XML forbids |
| Split.SanitizeIsByCharacter | ingest/app/split.py:104-107 | the characters written are the tab, the two line ends and everything from the blank on, each where it was |
| Split.Write | ingest/app/split.py:160-193 | the file is the header and every row in column order, and the count returned is the rows written |
| Split.FileExactly | ingest/app/split.py:160-193 | the file's first row is the names and every other one, row for row, what the row holds under each name, or nothing, without the characters XML forbids |
| Split.HeaderRoundTrip | ingest/app/split.py:294-316 | the header that was written names the same columns when it is read back if and only if its names are distinct |
| Split.SplitRoundTrip | ingest/app/split.py:294-316 | with distinct and clean names, written and re-read rows are the same if and only if no row that runs past its header is blank in the last named column |
| Split.UnnamedExactly | ingest/app/split.py:196-219 | a name reads as a placeholder exactly when its column's header was blank or itself imitates one |
| Split.TableExactly | ingest/app/split.py:196-219 | a header is a table's if and only if more than half of its columns have a name that is no column number |
| Split.LeadHeaderMatchesStream | ingest/app/split.py:222-259 | the header written for the lead sheet names the columns its rows are streamed under, and those rows are in the order of the sheet |
| Split.SplitSheet | ingest/app/split.py:262-323 | each sheet is written or explained, never both and never neither; it is written exactly when its header is a table's, it has rows and nothing was raised; each refusal has its own reason and counts; an exception fails the sheet, keeps its message and leaves no file |
| Split.OutputNamesNeverCollide | ingest/app/split.py:87-101 | two sheets of one workbook never get the same file name, whatever they are called |
| Split.OutputNameIsSafe | ingest/app/split.py:87-101 | a file name holds small letters, digits, hyphens and the extension only, starts with an ordinal of two digits or more and is short, whatever the sheet is called |
| Split.NameIsRecognised | ingest/app/split.py:87-101 | two words of a sheet's name are, in small letters and joined by a hyphen, the file's |
| Leads.RowToLead | ingest/app/leads.py:161-204 | the loop over a row's columns gives the lead of its mapped and extra columns, and none without a usable lead number |
| Leads.FieldIsLastFeeding | ingest/app/leads.py:161-204 | a field holds the value of the last column that feeds it |
| Leads.UnmappedColumnsKept | ingest/app/leads.py:161-204 | a column outside the lead's fields is kept under its header exactly when it says something, and no other is |
| Leads.LeadFieldsExactly | ingest/app/leads.py:161-204 | a row is a lead if and only if it has a lead number, and each field is read from the column of its own header |
| Leads.LeadRestExactly | ingest/app/leads.py:161-204 | the location is read from the one further right of its two columns, and every column that fills no field is kept under its header |
| Leads.TextKeepsItsWords | ingest/app/leads.py:75-81 | a text loses nothing but white space and comes out trimmed and single-spaced; it is nothing exactly for an absent cell or a word that stands for nothing |
| Leads.WordsForNothing | ingest/app/leads.py:48-48 | the eight words that stand for nothing, and no others |
| Leads.SmCodeShape | ingest/app/leads.py:100-112 | a code is 3 to 32 capital letters, digits and hyphens, the first no hyphen, and every such text is one |
| Leads.WholeNumberIsItsDigits | ingest/app/leads.py:84-97 | a whole number is its digits, however the reader shows it |
| Leads.DaysExactly | ingest/app/workbook.py:137-150 | a date is a date cell or a serial from 1 to 60,000 |
| LeadImport.LastRowWins | ingest/app/db.py:221-247 | after upserting a list, a lead number holds the last row that names it |
| LeadImport.OthersUntouched | ingest/app/db.py:250-301 | a lead number not in the list keeps what the table had |
| LeadImport.RerunAbsorbsPrefix | ingest/app/jobs.py:125-168 | upserting all rows after any prefix of them leaves what upserting them once leaves |
| LeadImport.CollapseDuplicateLeadNos | ingest/app/db.py:221-247 | the overwriting loop returns one row per lead number: the numbers in first-seen order, each with the last row that has it |
| LeadImport.CollapseKeepsFirstOrderLastRow | ingest/app/db.py:221-247 | for any rows: the numbers kept are the distinct ones in the order they first occur, and every number's last row is kept |
| LeadImport.CollapsePreservesUpserts | ingest/app/db.py:221-247 | upserting the collapsed rows equals upserting all of them, and no lead number occurs twice |
| LeadImport.Connection.Execute | ingest/app/db.py:262-301 | the statement upserts a list of distinct leads, and fails with nothing written if one occurs twice |
| LeadImport.UpsertLeads | ingest/app/db.py:250-301 | refuses more than 1,000 rows, else upserts them all in one legal statement and reports how many it wrote |
| LeadJob.LeadOutcome.constructor | ingest/app/leads.py:140-158 | a fresh outcome counts nothing |
| LeadJob.LeadOutcome.Take | ingest/app/jobs.py:129-155 | one more row keeps every counter equal to what it counts |
| LeadJob.LeadOutcome.Count | ingest/app/jobs.py:137-155 | duplicates, unassigned and codes stay exact as a lead is counted |
| LeadJob.LeadOutcome.ToReport | ingest/app/jobs.py:172-195 | total = attributed + unassigned + skipped, parsed - duplicates = distinct leads, distinct <= written <= parsed; the orphan count is exact, and the list is the first hundred orphan codes in text order |
| LeadJob.CutListsFirst | ingest/app/jobs.py:189-190 | cutting the sorted codes lists each code once, in order, and leaves out only codes that come after every listed one |
| LeadJob.FlushChunk | ingest/app/jobs.py:157-168 | a chunk is committed whole or not at all |
| LeadJob.StreamRows | ingest/app/jobs.py:125-168 | at every row the table holds the committed leads upserted one by one and the buffer the rest |
| LeadJob.RunLeads | ingest/app/jobs.py:99-204 | killed at any row, the table is the old one with a whole number of chunks upserted and fewer than one chunk lost; finished, it is all of them and the report balances; it fails only for a chunk size over 1,000 |
| LeadJob.RunUntilDone | ingest/app/jobs.py:99-204 | any number of interrupted runs and one full run end in the table of one upsert per row |
| LeadJob.ImportLeads | ingest/app/jobs.py:99-204 | the same from the sheet's records, on rows in the order of the sheet: each lead number ends with the lead of the last row that names it, stamped, and every other keeps what it had; the narrow stream, the chunks and the interruptions do not show, and every statement sent was legal |
| LeadJob.UpsertsHoldLast | ingest/app/jobs.py:125-168 | row by row: each lead number holds the lead of the last row that names it, unassigned exactly when that row has no code or the pool's, and one that no row names holds what it held |
| LeadJob.CodesExactly | ingest/app/jobs.py:143-147 | the codes counted are those of the leads that somebody owns |
| LeadJob.UnassignedExactly | ingest/app/jobs.py:143-145 | the unassigned leads counted are those stored as unassigned |
| Normalize.TextIsStable | src/lib/import/normalize.ts:34-54 | normalized text normalizes to itself |
| Normalize.StatusIsStable | src/lib/import/normalize.ts:205-209 | a normalized status normalizes to itself |
| Normalize.AutopayIsStable | src/lib/import/normalize.ts:186-203 | a normalized autopay value normalizes to itself |
| Normalize.SmIdNotIdempotent | src/lib/import/normalize.ts:110-123 | a code that squeezes to a sentinel is dropped by the next pass |
| Normalize.SmIdSecondPass | src/lib/import/normalize.ts:110-123 | a second pass changes nothing unless the first left a sentinel, and then it drops the code |
| Normalize.SmIdTwiceIsStable | src/lib/corrections/schemas.ts:209-250 | two passes leave a code every later pass keeps |
| Normalize.IdentifierSecondPass | src/lib/import/normalize.ts:56-108 | a second identifier pass changes nothing, or refuses |
| Normalize.TextExactly | src/lib/import/normalize.ts:41-54 | text is nothing exactly when it stands for nothing; otherwise only white space is taken out, and it is trimmed and single-spaced |
| Normalize.SentinelExactly | src/lib/import/normalize.ts:32-39 | the ten words that stand for nothing, in any case and with any white space around them, and no others |
| Normalize.CodeAndStatusExactly | src/lib/import/normalize.ts:110-123 | a code is what was typed without white space and in capitals, a status the text in capitals |
| Normalize.AutopayExactly | src/lib/import/normalize.ts:186-203 | which words say yes, which say no, and what is kept as typed |
| Normalize.IdentifierExactly | src/lib/import/normalize.ts:56-108 | an identifier is refused exactly in scientific notation, and otherwise is what was typed without white space, the same number without leading zeros if it is one |
| Normalize.ScientificIsSeen | src/lib/import/normalize.ts:76-91 | every text in scientific notation is recognised |
| Normalize.OnlyScientificIsSeen | src/lib/import/normalize.ts:76-91 | and no other is |
| Premiums.MoneyIsStable | src/lib/import/normalize.ts:125-172 | a normalized amount normalizes to itself |
| Premiums.NormalizedIsNormal | src/lib/import/normalize.ts:125-172 | a normalized amount is digits, a point and two digits, and has a minus sign only if it is zero |
| Premiums.AmountIsRead | src/lib/import/normalize.ts:125-172 | what is read is digits with perhaps a fraction, once signs, commas and white space are out, and its value is theirs rounded half up at the third decimal |
| Premiums.RefusedExactly | src/lib/import/normalize.ts:125-172 | an amount is refused exactly when something was entered and no value is read |
| Premiums.NoiseExactly | src/lib/import/normalize.ts:129-131 | which characters are taken out of an amount before it is read |
| Premiums.PlainAmountIsRead | src/lib/import/normalize.ts:125-172 | digits with a fraction are read, and refused below zero, with a minus sign or in parentheses, zero aside |
| Premiums.PrintedExactly | src/db/schema/records.ts:144-145 | the column prints an amount as it was written if and only if it has no minus sign and no leading zero |
| Premiums.KeptExactly | src/db/schema/records.ts:144-145 | the column has room for an amount if and only if its whole part has at most sixteen digits, leading zeros aside |
| Calendar.DateSecondPass | src/lib/import/dates.ts:43-139 | a normalized date normalizes to itself, or is refused if and only if it was printed with a sign |
| Calendar.DayIsRead | src/lib/import/dates.ts:43-75 | year, month and day with a slash, hyphen or point between them are that day if it exists, and refused if it does not |
| Calendar.DaysExactly | src/lib/import/dates.ts:43-53 | which days exist |
| Calendar.SerialIsRead | src/lib/import/dates.ts:33-41 | a number above 366 is the day so many days after 30 December 1899 |
| Calendar.SerialsEndWithTheClock | src/lib/import/dates.ts:33-41 | the serials that are read are exactly those of days a script's clock can name |
| Calendar.SmallNumberIsRefused | src/lib/import/dates.ts:108-116 | a number up to 366 is refused |
| Calendar.DayAfterExactly | src/lib/import/dates.ts:33-41 | counting days from the first of a year arrives at the day that many days later |
| Calendar.FourDigitsReadBack | src/lib/import/dates.ts:43-75 | a day in a four-digit year is read back from its ISO text |
| Calendar.SixDigitsAreRefused | src/lib/import/dates.ts:43-75 | a day in a later year is printed as a text that is no date |
| TeamScope.TeamsNest | src/lib/auth/rbac.ts:118-162 | a leader whose own row sits under a manager has their whole scope inside the manager's |
| TeamScope.UnplacedLeaderIsOutside | src/lib/auth/rbac.ts:118-162 | a leader without a roster row is outside every other manager's scope |
| TeamScope.TlTeamExactly | src/lib/auth/rbac.ts:118-127 | a leader's team is the leader and the rostered reps placed under the leader, by pin or sheet, and nobody else |
| TeamScope.AcmTeamExactly | src/lib/auth/rbac.ts:129-146 | a manager's team is the manager, the rostered reps placed under the manager and those of rostered leaders placed under the manager, and nobody else |
| TeamScope.ScopeExactly | src/lib/auth/rbac.ts:164-179 | whose records each role reads, an if and only if from the sheet, the pins and the account alone |
| TeamScope.BooksExactly | src/lib/corrections/service.ts:197-237 | whom each role raises for: a rep for their own code, a manager for the rostered codes they read, others for none |
| TeamScope.BooksWithinScope | src/lib/corrections/service.ts:197-237 | nobody raises for a book they cannot read |
| TeamScope.BooksAreScopeExactly | src/lib/corrections/service.ts:171-231 | a manager's books are their read scope if and only if their own code has a roster row |
| Records.CoerceValue | src/lib/approvals/record-apply.ts:107-150 | a required column is never coerced to nothing |
| Records.ApplyFrame | src/lib/approvals/record-apply.ts:206-293 | an application leaves in its own column what that column makes of the new value, sets the name for a mapping, changes nothing else, moves the version up by one, and records in the version row every field it changed |
| Records.ApplyWritesExactly | src/lib/approvals/record-apply.ts:206-293 | which column each category writes, what it held before, that a mapping gives the record the new owner's roster name or none, and what the version row remembers |
| Records.WarnedExactly | src/lib/approvals/record-apply.ts:223-386 | a mapping warns that the name was cleared if and only if it was, and of a side without a login if and only if it has none, each once |
| Records.PreviewPredictsApply | src/lib/approvals/record-apply.ts:445-464 | an approval fails exactly when the preview reports a problem, the same one, or the amount has no room in its column, which the preview does not report; otherwise the preview shows the value that will be overwritten |
| Records.ReplayRebuilds | src/lib/approvals/record-apply.ts:273-293 | copying each version's changed fields forward from the first rebuilds the last |
| Corrections.ResolveOwnRecord | src/lib/corrections/service.ts:263-284 | whatever it finds is in the actor's books |
| Corrections.ResolvesExactly | src/lib/corrections/service.ts:239-284 | an application number match, or the only policy number match; refused as missing when there is none and as ambiguous when there are two |
| Corrections.FieldsExactly | src/lib/corrections/schemas.ts:138-160 | how each field is normalized when it is proposed and again when it is applied, and when a value is refused |
| CorrectionRuns.StepKeepsRequests | src/lib/corrections/service.ts:775-816 | a step keeps every request, changes nothing that is fixed at submission, and leaves a decided request alone |
| CorrectionRuns.RunKeepsRequests | src/lib/corrections/service.ts:51-78 | the same over any run: APPROVED, REJECTED and WITHDRAWN are never left; record, book, month, category, direction, field, snapshot and submitter are fixed for life |
| CorrectionRuns.ParsedShape | src/lib/corrections/schemas.ts:178-361 | a parsed submission targets its category's field, has a direction exactly for a mapping, and names neither forbidden field |
| CorrectionRuns.NewRequestIsSound | src/lib/corrections/service.ts:337-540 | an accepted submission carries the live value and a canonical, well-directed proposal |
| CorrectionRuns.RevisedIsSound | src/lib/corrections/service.ts:671-740 | an accepted answer keeps it so |
| CorrectionRuns.ApplyKeepsUndrifted | src/lib/approvals/record-apply.ts:211-267 | an approval drifts no other open request |
| CorrectionRuns.ApplyExtendsChain | src/lib/approvals/record-apply.ts:269-293 | an approval extends the version chain honestly |
| CorrectionRuns.StepKeepsInv | src/lib/corrections/service.ts:337-962 | every step keeps the whole invariant |
| CorrectionRuns.RunKeepsInv | src/lib/corrections/service.ts:337-962 | so does every run |
| CorrectionTheorems.NoDriftWhileOpen | src/lib/corrections/service.ts:468-473 | in every reachable state an open request's snapshot is what its record holds, the rep's name aside |
| CorrectionTheorems.DriftExactly | src/lib/approvals/record-apply.ts:223-267 | the value under an open request changes in a step if and only if the request is on the rep's name and the step approves a mapping of that record to a code with another name |
| CorrectionTheorems.MappingAlwaysMoves | src/lib/corrections/service.ts:423-460 | approving a mapping never fails, changes the owner to exactly the code named, sets the name from the roster, lands a claim in the claimant's book and a transfer out of it, never on a placeholder |
| CorrectionTheorems.OwnerChangesExactly | src/lib/corrections/schemas.ts:122-136 | a step changes a record's owner if and only if it approves a mapping of it; application number and month never change |
| CorrectionTheorems.OwnerIsTraced | src/lib/corrections/schemas.ts:301-317 | after any run a record has its imported application number, and its imported owner or one that an applied mapping on file named |
| CorrectionTheorems.VersionChain | src/db/schema/records.ts:285-303 | after any run a record has exactly the versions 1 to its current one, the last is the live row, the first the imported one, and replaying the changed fields rebuilds the live values |
| CorrectionTheorems.OneOpenPerField | src/lib/corrections/service.ts:51-64 | no reachable state has two open requests on one field of one record |
| CorrectionTheorems.SubmitHoldsTheSlot | src/lib/corrections/service.ts:657-663 | an accepted submission found its slot free and holds it |
| CorrectionTheorems.ResubmitNeverConflicts | src/lib/corrections/service.ts:874-886 | in no reachable state can a resubmission find its slot taken |
| CorrectionTheorems.Timeline | src/lib/corrections/service.ts:775-816 | events connect, end in the request's status, and hold one RESUBMITTED per counted resubmission |
| CorrectionTheorems.SecondPassExactly | src/lib/approvals/record-apply.ts:107-150 | what a field's normalizer produced is coerced to itself when it is applied, but an identifier that reads as a sentinel is dropped and a date past 9999 is refused |
| CorrectionTheorems.AppliedIsProposedExactly | src/lib/approvals/record-apply.ts:107-150 | in every reachable state an approval goes through if and only if the proposal is no date past year 9999 and no amount its column has no room for; then it writes exactly the proposal if and only if that is no identifier that reads as a sentinel, which becomes NULL, and no amount with a leading zero or minus sign, which stays the same amount; all of these only under OTHERS |
| CorrectionTheorems.ApprovalChangesExactly | src/lib/approvals/record-apply.ts:206-267 | an approval that goes through changes its field if and only if what the column will hold of the proposal is not the snapshot the request was raised on, the rep's name aside |
| CorrectionTheorems.FreshRequestsChange | src/lib/corrections/service.ts:468-473 | through any run, a request never sent back proposes something other than its snapshot |
| CorrectionTheorems.NameAgreesExactly | src/lib/fields.ts:271-295 | after an approval the name is the roster's if and only if it was a mapping, or wrote the roster's name, or left the name alone and they agreed |
| CorrectionTheorems.AcceptedWithinScope | src/lib/corrections/service.ts:384-484 | an accepted request is about a record its submitter reads, or claims one into a code they read; it carries that code, the month, which is open, and a rostered destination for a transfer |
| Submissions.ResolvedExactly | src/lib/corrections/service.ts:263-411 | an identifier names the record with that application number; for a transfer out the one in the books, or else the only one in the books with that policy number; missing and ambiguous exactly when there is none or there are two |
| Submissions.ParsedExactly | src/lib/corrections/schemas.ts:178-361 | the form takes a submission if and only if its number, note and value meet their category's rule, and reads exactly that |
| Submissions.AcceptedExactly | src/lib/corrections/service.ts:337-667 | a submission is accepted if and only if some record is named by it, is in place for its kind, would change, is in an open month and has no open request on the field; and it is filed on that record, with its number, month, owner and counterparty |
| Submissions.FiledOnTypedNumber | src/lib/corrections/service.ts:397-411 | the request carries the application number that was typed; a transfer out may name the only record of that policy number in the books instead |
| Submissions.NotFoundExactly | src/lib/corrections/service.ts:263-411 | a submission is answered as naming nothing if and only if no record has its number, or for a transfer out none in the books has it as either number |
| Submissions.AnsweredExactly | src/lib/corrections/service.ts:671-887 | an answer is accepted if and only if its value meets the rule of its direction and nobody else holds the field, and changes the value, the note, the count and the status, nothing else |
| Submissions.WithdrawnExactly | src/lib/corrections/service.ts:891-962 | a submitter withdraws their own request exactly while it is PENDING or RETURNED, and nothing else moves |
| Submissions.DecidedExactly | src/lib/corrections/service.ts:775-816 | what each decision makes of a request that is due one, and what it writes in the timeline, the record and the versions |
| CorrectionWitnesses.IdentifierIsLost | src/lib/approvals/record-apply.ts:107-150 | a run that ends with a policy number of `n a` approved and the column cleared |
| CorrectionWitnesses.NameLeavesRoster | src/lib/corrections/schemas.ts:301-317 | a run that ends with a name that is not the roster's |
| CorrectionWitnesses.FarDateIsStuck | src/lib/import/dates.ts:43-53 | a run that accepts a login date of 4 March 12026, of which no approval goes through |
| CorrectionWitnesses.AmountIsReprinted | src/lib/import/normalize.ts:161-170 | a run that approves `007` where `7.00` stands, writes a version and changes no amount |
| CorrectionWitnesses.AmountIsStuck | src/db/schema/records.ts:144-145 | a run that accepts a premium of seventeen digits, which its column refuses at approval |
| CorrectionWitnesses.ResubmissionMayChangeNothing | src/lib/corrections/service.ts:693-735 | a run in which the location already held is refused on submission, then accepted as the answer to a returned request and approved, leaving every value as it was |
| Workflow.OneRungOpenExactly | src/lib/workflows/engine.ts:871-960 | on a ladder in order one rung is open exactly while a decision is due, the one above those passed |
| Workflow.RepairNeverRuns | src/lib/workflows/engine.ts:251-310 | for every request raised through the portal the repair changes nothing |
| Workflow.JudgeRefines | src/lib/workflows/engine.ts:535-868 | deciding a rung does what a decision on the request does, or nothing, and keeps the ladder in order |
| Workflow.DeskStepRefines | src/lib/workflows/engine.ts:58-176 | every step of the engine, both reroutes included, is a step of the portal or leaves its tables alone; no rung of a request's own chain is added, removed, reordered or given the power to refuse, and the ladders stay in order |
| Workflow.EngineRunsAreRuns | src/lib/workflows/engine.ts:535-868 | every state the engine reaches is one the portal's runs reach |
| Workflow.AppliedClearedEveryRung | src/lib/workflows/engine.ts:439-533 | in every reachable state an applied correction cleared every rung of the chain it was raised on, each signed; where that chain asks for somebody new the signer signed no rung below, unless a reroute dropped the question or the rung resolved to nobody; a rejected one was rejected at a rung that may; a rung is open exactly while a decision is due |
| Workflow.SecondSignatureExactly | src/lib/workflows/engine.ts:439-533 | at the open rung somebody who signed already is let through if and only if the rung admits them and does not ask for somebody new or resolves to nobody |
| Workflow.SecondSignaturePossibleExactly | src/lib/workflows/engine.ts:1476-1490 | in every reachable state an open rung above the first can come to be signed by somebody who signed below if and only if it does not ask for somebody new or is no pool of a role; for a pool the chain did ask about, if and only if a reroute dropped the question |
| Authority.ResolvedExactly | src/lib/workflows/resolvers.ts:68-145 | a rung is for the holders of its role, for its one active person, for the manager of the rep on its side, or for nobody, exactly as its key and configuration say |
| Authority.NotAuthorizedExactly | src/lib/workflows/engine.ts:439-533 | a decision is refused for want of authority if and only if the actor does not hold the rung's role, is not its person, is no administrator where it is for nobody, or has passed another rung where it asks for somebody new |
| Authority.JudgedExactly | src/lib/workflows/engine.ts:535-868 | a decision goes through if and only if the actor is entitled to the open rung, a reason is given for anything but advancing, the rung may refuse, and at the last rung the proposal can be written |
| Authority.JudgedMoves | src/lib/workflows/engine.ts:535-868 | and gives the request the status that follows, tells the timeline so, a verifier's pass apart from anybody else's, and touches no record unless it applies the proposal |
| Authority.JudgedSignsOne | src/lib/workflows/engine.ts:535-960 | and signs that rung in the actor's name, opens the next one pinned to its person, and touches no other rung or request's ladder |
| Authority.NothingToDecide | src/lib/workflows/engine.ts:356-412 | where no rung is in progress every decision is refused |
| Authority.SignerWasEntitled | src/lib/workflows/engine.ts:439-868 | over every run: each signature on each rung was put there by a decision its signer took while the rung was in progress, configured as it still stands, and was entitled to take |
| Authority.ClimbsFromTheBottom | src/lib/workflows/engine.ts:58-157 | a raised request starts at the first rung of its chain and an answered one again at the first of its own, pinned to its person, nothing signed |
| Authority.ReassignedExactly | src/lib/workflows/engine.ts:1476-1510 | which open rungs a reassignment moves, and that afterwards the new person alone may decide them, or an administrator if that account is not active |
| Authority.RetriedExactly | src/lib/workflows/engine.ts:1324-1430 | which open rung a retry rewrites, from which rung of the chain, and whom it is pinned to |
| WorkflowWitnesses.OneSignerOnBothRungs | src/lib/workflows/engine.ts:1488-1490 | a run in which the first signer is given the open second rung and signs it, though the chain asked for somebody new |
| WorkflowWitnesses.OneAdministratorOnBothRungs | src/lib/workflows/engine.ts:439-457 | a run in which one administrator clears two rungs that resolve to nobody, though the second asks for somebody new |
| Bulk.BulkIsItsSuccessesExactly | src/lib/approvals/bulk.ts:45-93 | a batch leaves what deciding only its reported successes leaves if and only if none of its ids is approved below the last rung, or verified at it, by somebody that rung admits |
| Bulk.BulkIsItsDecisions | src/lib/approvals/bulk.ts:53-90 | a batch leaves what deciding every one of its ids leaves: a reported failure undoes nothing |
| Bulk.JudgeFollowsFate | src/lib/approvals/apply.ts:115-157 | deciding an id is declined, committed against the adapter's expectation, or a success, exactly as read off its own request and ladder |
| Bulk.CommittedExactly | src/lib/verification/apply.ts:81-97 | an id is committed and reported as a failure if and only if its open rung admits the actor and it is approved below the last rung, or verified at it and can be written |
| Bulk.CommittedMoves | src/lib/approvals/apply.ts:149-157 | such an id is not where it was when the batch ends |
| Bulk.BulkSplits | src/lib/approvals/bulk.ts:45-93 | from any state of the engine a batch of distinct ids reports each one, in order, as its own request, ladder and rung's authorization said before the batch began: succeeded, declined with the engine's reason, or committed and reported as a failure |
| Bulk.BulkReportsInOrder | src/lib/approvals/bulk.ts:45-93 | each list of the report is the ids at increasing places of the batch, the successes and the failures at complementary ones |
| Bulk.SplitCovers | src/lib/approvals/bulk.ts:45-93 | the two lists cover every id, an id is in the first exactly when its fate is to succeed, and in the second only with the reason of its fate |
| Authority.FateExactly | src/lib/approvals/apply.ts:115-157 | an id succeeds, or is committed and reported as a failure, exactly under conditions on its open rung, the verb and the actor's entitlement to it |
| Bulk.SecondCopyFails | src/lib/approvals/schemas.ts:72-85 | the same id again finds no open rung, unless the first decision only passed the request on |
| Bulk.VersionsCountApplications | src/lib/approvals/record-apply.ts:214-219 | each record's version rises by exactly the number of its requests the batch applied, whatever was reported of them |
| Bulk.AppliedIsReported | src/lib/verification/apply.ts:84-93 | an application is reported a success if and only if the verb was APPROVE, and only APPROVE and VERIFY apply anything |
| Bulk.WarningsAreDistinct | src/lib/approvals/bulk.ts:51-68 | the report holds each warning raised once, in the order they were first raised |
| Bulk.WarnedExactly | src/lib/approvals/bulk.ts:51-68 | a warning is in the report if and only if an application that is reported as a success raised it |
| WorkflowWitnesses.ApprovedBelowTheTop | src/lib/approvals/apply.ts:149-157 | a batch that reports its one id as failed and leaves the request VERIFIED |
| WorkflowWitnesses.VerifiedAtTheTop | src/lib/verification/apply.ts:84-93 | a batch that reports its one id as failed and leaves the record at its second version |
| JsSet.DistinctKeepsFirsts | src/lib/approvals/schemas.ts:81-85 | the de-duplicated ids are the given ones, each once, in first-seen order |
| Portal.Tables.constructor | src/lib/approvals/record-apply.ts:273-279 | records as imported, each with itself as version 1 |
| Portal.Tables.InsertRequest | drizzle/custom/0002_one_open_correction.sql:24-26 | inserts if and only if no open request holds the record's field |
| Portal.Tables.SubmitCorrection | src/lib/corrections/service.ts:337-667 | the tables become what the submit step says, or stay as they were with its reason |
| Portal.Tables.ResubmitCorrection | src/lib/corrections/service.ts:671-887 | the same for a resubmission |
| Portal.Tables.WithdrawCorrection | src/lib/corrections/service.ts:891-962 | the same for a withdrawal |
| Portal.Tables.ApplyCorrectionToRecord | src/lib/approvals/record-apply.ts:197-387 | writes the record, as its columns keep it, and its next version row, or nothing, with the warnings |
| Portal.Tables.DecideStage | src/lib/workflows/engine.ts:535-868 | one decision on the open rung, by somebody it admits, in one transaction: signature, request, timeline, record and next rung, or nothing with the engine's reason |
| Portal.Tables.RetryStageRouting | src/lib/workflows/engine.ts:1324-1430 | an open rung pinned to nobody takes its routing from the chain as it stands now; every other rung and table stays |
| Portal.Tables.ReassignOpenStages | src/lib/workflows/engine.ts:1476-1510 | every open rung of the chain and key that somebody else holds is handed over, its configuration replaced; nothing else moves |
| Portal.Tables.RunBulk | src/lib/approvals/bulk.ts:45-93 | the loop leaves the tables and the report of the batch, an outcome its adapter did not expect committed and reported as a failure |
| Portal.Tables.DecideMany | src/lib/approvals/schemas.ts:69-104 | a posted list within its limits is de-duplicated and decided; outside them nothing happens |
| Money.UnsignedReads | src/lib/dashboard/performance.ts:188-195 | every text of the pattern is read, with and without a fraction |
| Money.ReadOnlyThese | src/lib/dashboard/performance.ts:188-195 | and no other text is |
| Money.AnyFractionReads | src/lib/dashboard/performance.ts:188-195 | `12` is 1200 paise, `12.5` is 1250, and digits past the second are cut, for every such text and either sign |
| Money.ReadPrinted | src/lib/dashboard/performance.ts:188-202 | reading a printed amount gives the amount back, for every integer number of paise |
| Money.SumIsRead | src/lib/dashboard/performance.ts:355-357 | a summed column's text reads as its exact sum, nothing included |
| Money.DisplayLosesNothing | src/lib/format.ts:10-17 | taking the commas out of a displayed amount gives every digit back |
| Money.DisplayedIsExact | src/lib/format.ts:10-17 | for every integer, the displayed amount without commas is the printed one and reads as the integer |
| Money.DisplayOfLess | src/lib/format.ts:10-17 | no amount shows a dash, and one without decimals gets two |
| Money.GroupsOfThree | src/lib/format.ts:14-15 | the first group has one to three digits and every other exactly three |
| Sorting.SortedIsOrdered | src/lib/dashboard/performance.ts:496-504 | the sorted list is a permutation, in order |
| Sorting.SortIsStable | src/lib/dashboard/performance.ts:496-504 | rows of equal rank keep the order they came in |
| Performance.OneOutcome | src/lib/dashboard/sql.ts:126-158 | every sale has exactly one outcome, read off the two status columns: which are issued, which rejected, which pending, and which are counted as unrecognised |
| Performance.TidiedExactly | src/lib/dashboard/sql.ts:113-114 | a status is read in any case and without the blanks around it, a missing one as an empty one |
| Performance.AggregateIsExact | src/lib/dashboard/performance.ts:341-373 | the aggregate with pending as the remainder is the sale-by-sale count, and balances |
| Performance.SumMetrics | src/lib/dashboard/performance.ts:171-186 | the loop over texts is exact addition in every figure |
| Performance.GroupingConserves | src/lib/dashboard/performance.ts:381-409 | the groups at any rung, for any roster and pins and in any order, add up to the sales |
| Performance.RowIsExact | src/lib/dashboard/performance.ts:446-491 | each row counts its own sales, and issued + rejected + pending = logins with 0 <= unclassified <= pending |
| Performance.GroupByGroups | src/lib/dashboard/performance.ts:446-475 | a grouping of any sales exists and is what the query describes |
| Performance.LoadPerformance | src/lib/dashboard/performance.ts:483-506 | people and buckets are separated, each sorted, and the total is the sum of both |
| Performance.ReportConserves | src/lib/dashboard/performance.ts:446-506 | the report's total is the sale-by-sale count, the same at every rung, and equals the ungrouped aggregate |
| Performance.ReportSays | src/lib/dashboard/performance.ts:446-506 | each row of the report counts, for exactly the sales of its own code, what their columns say, and adds up exactly their amounts; every sale is on one row and no other; buckets and people are apart |
| Performance.TotalTextExactly | src/lib/dashboard/performance.ts:171-202 | the two totals are the same text if and only if some sale has an amount |
| Performance.RowsAreRanked | src/lib/dashboard/performance.ts:496-503 | biggest book first, the unplaced row last whatever its size |
| Performance.BucketsAreRanked | src/lib/dashboard/performance.ts:496-504 | buckets are listed biggest first |
| Performance.CountedIsReadExactly | src/lib/dashboard/performance.ts:389-409 | a sale on a manager's row is in the manager's read scope if and only if its rep has a roster row or is the manager |
| Performance.ReadIsCounted | src/lib/auth/rbac.ts:118-162 | a rep a leader reads counts on that leader's row |
| Performance.ReadByManagerExactly | src/lib/auth/rbac.ts:129-146 | another rep is in a manager's scope if and only if they are rostered and their sales count on that manager's row or on that of a rostered leader placed under that manager |
| Peers.RankIsAPlace | src/lib/dashboard/performance.ts:642-671 | a rank is in 1 to the number of peers, and only a ranked subject has one |
| Peers.RankFollowsRate | src/lib/dashboard/performance.ts:656-660 | equal rates share a place, and a better rate has a better one |
| Peers.RankExactly | src/lib/dashboard/performance.ts:649-662 | exactly the rows with a code and logins are peers, and a rank is one more than the number of them with a strictly better rate |
| Peers.MedianIsInTheMiddle | src/lib/dashboard/performance.ts:673-678 | at least half the rates lie on each side of the median |
| Peers.MedianExactly | src/lib/dashboard/performance.ts:670-674 | the middle rate in order, or the mean of the middle two |
| Peers.AverageIsBetween | src/lib/dashboard/performance.ts:663-669 | the pooled average lies between any bounds on the rates |
| Peers.AverageIsPooled | src/lib/dashboard/performance.ts:663-666 | the average is everything issued over everything logged in |
| Peers.OrderDoesNotMatter | src/lib/dashboard/performance.ts:642-678 | with one row a code, the order of the rows changes nothing in the standing |
| Ageing.FindBucket | src/lib/dashboard/ageing.ts:43-52 | the loop returns the bucket of the age |
| Ageing.RangeIsAge | src/lib/dashboard/ageing.ts:66-74 | a bucket's window holds exactly the requests whose floored age it covers |
| Ageing.AgeInMilliseconds | src/lib/dashboard/ageing.ts:31-52 | fresh for 259,200,000 milliseconds, ageing up to 691,200,000, stale from then on |
| Ageing.WindowsInMilliseconds | src/lib/dashboard/ageing.ts:66-74 | what the three counts count, in milliseconds |
| Ageing.OneBucketExactly | src/lib/dashboard/ageing.ts:31-74 | exactly one window holds a request submitted by now, the one of its age |
| Ageing.DepthExactly | src/lib/dashboard/ageing.ts:31-41 | the counts sum to the depth if and only if no request is dated ahead |
| Ageing.AheadIsListedFresh | src/lib/dashboard/ageing.ts:49-51 | a request dated ahead reads fresh and is in no count |

## Left out

- Import and re-import of records, the roster commit and the period trigger's internals. Runs start from imported records at version 1; the roster, the pins, the closed months and the logins may change between any two steps.
- Which chain a request takes, and what the chain is now: both are arguments of the steps. The accounts that are active and the manager a rep's code leads to are a table (`Workflow.Directory`), which may be another at every step but stands still during a batch. Requests that predate the ladder and have no rungs at all are not modelled; the repair of a ladder with no open rung is.
- `Workflow.Stage.routed` and `Workflow.Ladder.raised` are memory of the model, which the tables do not keep: whether a rung resolved to somebody when it was decided, and the chain as it was when the request was raised.
- Event times, remarks, actors and attachments, and the wording of refusals.
- Doubles inside the amount and date normalizers: rounding at the third decimal is exact here, and a serial or an amount has as many digits as it is written with. Past 10^13 the code's rounding is a double's.
- Letters and digits outside ASCII: case mapping and digit tests are ASCII, while both languages map more letters and Python's `isdigit` admits more digits. Lengths are counted in characters, where JavaScript counts UTF-16 units.
- Calamine, pyxlsb, openpyxl and Postgres: a sheet is a grid or a record stream, a table a map with its key. A text cell's string table lookup cannot fail here.
- Times of day in Excel serials, floats other than whole and decimal numbers as the reader shows them, and progress, heartbeat and log writes of a job.
- LeadJob.RunLeads: an interruption falls between two rows or before the last flush; one inside a statement or a commit has the effect of one before or after it.
- Split.LeadHeaderMatchesStream: the public sheet reader the header is read through and the private record reader the rows are streamed from are one function here (`RawRows.Read`), since neither library is part of this model; what is proved is that cutting and naming agree, and that both readers see the same cells is taken for granted.
- Split.SplitSheet: an exception is an argument that says where it was raised; the notes and the timing of an outcome are not modelled.
- Peers.RankIsAPlace: rates are exact fractions, so two rates a double cannot tell apart are not tied here.
- Performance.LoadPerformance: the names shown beside the codes, and counts past 2^53, are not modelled.
- Portal.Tables.SubmitCorrection: proof storage, notices and audit rows are reduced to whether the proofs were stored and the chain opened.
- Concurrent sessions: each action is one atomic step. Row locks and the deadlock order are not modelled; the two constraints the database enforces are.
- Dashboards other than the performance report and the age counts, list filters, pages, sessions and routes: easy members only.
