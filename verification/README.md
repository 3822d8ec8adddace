# Verified models of the credit-analysis workspace

Dafny models of nine pieces of in-memory logic that the system relies on for tracing every number to
its evidence, with proofs about each. Run `dafny verify dfyconfig.toml` in this directory to check them.

Code that works step by step is modelled by methods with loops or by a class, each proved equal to a
specification function; the properties are lemmas about those functions, for all inputs or for every
state of every run. Pure code is a function. Protocols with several actors are state machines.

- **Loan-universe reconciliation** (`LoanRows`, `LoanReconciliation`, `LoanAcceptance`, `LoanTheorems`,
  `LoanUniverse`).
  Rows of a loan workbook, from the point where their cells are normalised: the identifier maps of the
  first pass, completion, re-keying and merging in the second, the findings cap, the final sort. The
  methods of `LoanUniverse` mutate row records that the merged table shares, as the importer does.
  Acceptance is characterised without any order, so it cannot depend on row order; `LoanAcceptance` says it, the
  listing and the findings in terms of what the cells hold. What the rows say can depend on order:
  `-0.0` and `0.0` compare equal in Python, the first row met is the one kept, and the two spell differently
  in a digest. `ReorderingIdenticalExactly` states when no reordering changes anything but the order of
  locators, and `SignOfZeroFollowsOrder` gives a workbook for which one does. The digest also covers each
  row's locators in order, so a merge alone makes it follow row order: `OrderFreeExactly` shows that it is
  the same under every reordering exactly when no two rows merge.
- **Request admission** (`RequestCeilings`, `RequestBody`, `EventTail`). The token bucket over exact
  reals and a clock parameter, with its eviction; the transport cap and its replay; the run-event stream
  as a client sees it across polls, cut-offs and resumption with `Last-Event-ID` (section 9.2 of the WHATWG HTML
  Living Standard).
- **Fail-closed table reader and chart numerals** (`TableReader`, `TablePlaces`, `TableFailures`, `ChartNumbers`). A scanned line
  carries the results of the line helpers (marker, heading, cells, visibility); the announced-name
  vocabulary is a parameter. `TableFailures` says over the lines alone when an identity may be passed over and what
  each failure code means. A chart numeral is related to the real number it denotes.
- **Audit chain** (`AuditChain`). The digest is a parameter. The verifier is complete only for rows that
  have a digest: a row with no digest and an unencodable field compares equal to it
  (`UndigestedRowPasses`), so the iff of `VerifiedExactly` asks for digests to be present.
- **Unified-diff parser** (`TextLines`, `DiffParser`, `DiffHarm`, `DiffLosses`, `DiffHeaders`). A printer of multi-file,
  multi-hunk diffs and the parser as its inverse. git ends a line at a newline only, while the parser reads
  lines as `str.splitlines` does, which also breaks at form feeds, U+2028 and others. An added line is lost in
  two ways: it holds such a character, or its text begins `++ ` and prints as a new-file line
  (`RecoveredExactly`). Any other line may do harm too, by what a break leaves over of it; `HarmlessExactly`
  gives, for context lines, dropped lines, section titles, metadata and what precedes the first header, the
  condition on its text under which every diff that holds it is recovered, and only under it. `DiffLosses`
  names a diff for each kind of loss. A path git prints in quotes reads back from the header, but its new-file line
  keeps the prefix behind the quote: the added lines go to another path (`QuotedPathMoves`).
- **Hash-addressed files** (`VaultFiles`, `VaultClashes`, `VaultProgress`, `VaultReads`). Names refer to inodes and a writer holds an inode.
  Any number of publishers take interleaved steps, each of which may fail or be its last, and temporary files
  of earlier crashes may be left over. A failed exclusive creation still unlinks the name, so it matters how
  many publishers whose target is absent draw one temporary name: none of them is ever in another's way if
  and only if each has a new one of its own (`ClashesExactly`), and published names always tell the truth if
  and only if at most two share one, or three where a file is left over (`TruthExactly`). `VaultProgress` says what each working step comes to, and that
  a writer left alone publishes. A key is text, read
  as a pure POSIX path is; the one that publication returns reads back as the path it was made of.
- **Workspace authority** (`WorkspaceAuthority`). The reducer over arbitrary event sequences.
- **Markdown blocks** (`MarkdownCells`, `TableRules`, `MarkdownBlocks`). The escape-aware splitter and the block loop,
  for tables in the shape of section 4.10 of the GitHub Flavored Markdown Spec, with a writer of whole documents as the
  inverse. JavaScript strings are modelled as sequences of characters; every character the code tests for
  is one UTF-16 unit.
- **Bundle integrity** (`PromptText`, `PromptPlaces`, `BundleIntegrity`, `BundleDocuments`, `BundleChecks`). Inventories, the three documents, the digest
  chain and the build id in the prompts. JSON, text encoding and the digest are parameters; each lemma
  names what it assumes of them. Collision-freedom is never assumed together with digests being 64
  hexadecimal digits, which would be contradictory.

`Common`, `StringOrder` and `Decimal` hold shared definitions. `TextLines` is `str.splitlines`, and `TableRules`
the dashes under a table's header, for the table reader as well.

## Model

| member | source | states |
|---|---|---|
| `LoanUniverse.Findings.Add` | caos/server/caos/artifacts/loan_universe.py:156-175 | The kept findings stay the first two hundred of all those raised |
| `LoanUniverse.LoanRow.FormKey` | caos/server/caos/artifacts/loan_universe.py:486-507 | A missing borrower and missing identifiers are both reported, and the key is formed from the FIGI, else the Bloomberg id, else the sheet and row |
| `LoanUniverse.CollectLinks` | caos/server/caos/artifacts/loan_universe.py:627-650 | The loop over mutable rows builds exactly the specified maps and findings |
| `LoanUniverse.LoanRow.CompleteIds` | caos/server/caos/artifacts/loan_universe.py:653-661 | In-place completion and re-keying of one row, as the specification completes it |
| `LoanUniverse.MergeInto` | caos/server/caos/artifacts/loan_universe.py:662-690 | One row merged into the shared record under its key changes that record's locators and no other record, or reports the disagreement |
| `LoanUniverse.MergeRows` | caos/server/caos/artifacts/loan_universe.py:652-690 | The second pass over mutable rows ends in the table, order and findings of the specification |
| `LoanUniverse.SortRows` | caos/server/caos/artifacts/loan_universe.py:694-701 | The listing is the stable sort by sector, borrower and key |
| `LoanUniverse.ReconcileRows` | caos/server/caos/artifacts/loan_universe.py:627-701 | The whole in-place reconciliation lists rows or reports capped findings exactly as Reconcile says |
| `LoanReconciliation.LinksClean` | caos/server/caos/artifacts/loan_universe.py:627-650 | The overwriting maps raise nothing if and only if the stated identifier pairs are one-to-one, and then hold exactly those pairs |
| `LoanReconciliation.MatchesUnique` | caos/server/caos/artifacts/loan_universe.py:628-650 | One-to-one pairs determine the maps, whatever order the rows came in |
| `LoanReconciliation.MergeClean` | caos/server/caos/artifacts/loan_universe.py:652-690 | Comparing each row with the first under its key is clean if and only if all rows under each key agree |
| `LoanReconciliation.AcceptedExactly` | caos/server/caos/artifacts/loan_universe.py:627-693 | A workbook is accepted if and only if nothing was found before, rows are complete, pairs are one-to-one and duplicates agree |
| `LoanReconciliation.CapKeepsRejection` | caos/server/caos/artifacts/loan_universe.py:165-166 | What a rejection shows is all findings, or the first two hundred of them, and never none |
| `LoanAcceptance.AcceptedByContent` | caos/server/caos/artifacts/loan_universe.py:486-693 | Accepted if and only if nothing was found before, every row has a non-empty borrower and a FIGI or Bloomberg id, the identifiers stated together are one-to-one, and rows that name one instrument state the same values |
| `LoanAcceptance.FoundExactly` | caos/server/caos/artifacts/loan_universe.py:486-690 | A finding is raised if and only if it was there before, or names a missing borrower or identifier, an identifier stated with another than the last time, or a completed row that disagrees with the one filed under its key; each at its row |
| `LoanAcceptance.FaceExactly` | caos/server/caos/artifacts/loan_universe.py:677-683 | Rows compare equal if and only if identifiers, key, sector, borrower and texts are the same and figures are numerically equal |
| `LoanAcceptance.OneKeyOneInstrument` | caos/server/caos/artifacts/loan_universe.py:653-662 | Two rows end under one key if and only if they share an identifier, their own or one stated beside it on any row |
| `LoanAcceptance.ListedByContent` | caos/server/caos/artifacts/loan_universe.py:669-701 | Every input row is stated by a listed row, every listed row is some input row completed, and the order is by sector, then borrower, then key |
| `LoanAcceptance.ListedOncePerInstrument` | caos/server/caos/artifacts/loan_universe.py:500-506 | Listed rows are one if and only if their instruments are, and each is keyed by its FIGI, else by its Bloomberg id |
| `LoanAcceptance.LessExactly` | caos/server/caos/artifacts/loan_universe.py:694-701 | Strings are ordered at their first difference, a proper prefix first |
| `LoanTheorems.AcceptedListing` | caos/server/caos/artifacts/loan_universe.py:627-701 | The listing is strictly sorted, has one row per key, states every contributor's values and carries exactly its contributors' locators |
| `LoanTheorems.ReorderingPreservesOutcome` | caos/server/caos/artifacts/loan_universe.py:627-702 | Any reordering of the rows is accepted or rejected alike, and lists equal rows with the same locators |
| `LoanTheorems.ReorderingIdenticalExactly` | caos/server/caos/artifacts/loan_universe.py:677-690 | Every reordering lists identical rows, locator order apart, if and only if no two merging rows spell a zero with different signs |
| `LoanTheorems.SignOfZeroFollowsOrder` | caos/server/caos/artifacts/loan_universe.py:677-690 | An accepted workbook, one instrument marked 0.0 on one row and -0.0 on the next, for which some reordering lists a different value |
| `LoanTheorems.OrderFreeExactly` | caos/server/caos/artifacts/loan_universe.py:627-702 | For rows of one locator each, the listing that the digest covers, locator order included, is the same under every reordering if and only if no two rows end under one key |
| `LoanTheorems.ProvenanceConserved` | caos/server/caos/artifacts/loan_universe.py:669-690 | Every input locator appears in the listing exactly as often as in the input, on a row that states its row's completed values |
| `LoanTheorems.KeysNeverConflict` | caos/server/caos/artifacts/loan_universe.py:662-668 | After a clean first pass the conflicting-identifiers branch of the second is never taken |
| `LoanTheorems.SharedIdentifierSharesKey` | caos/server/caos/artifacts/loan_universe.py:653-662 | Two rows end under one key if and only if, once completed, they share an identifier; rows that share one beforehand do |
| `LoanTheorems.IdentifiersOneToOne` | caos/server/caos/artifacts/loan_universe.py:627-690 | Listed rows that share either identifier are one row: the listed pairs are a partial bijection |
| `LoanTheorems.SharedIdentifierSharesRow` | caos/server/caos/artifacts/loan_universe.py:652-690 | Input rows that share either identifier end in the same listed row |
| `LoanTheorems.ReconcileFixedPoint` | caos/server/caos/artifacts/loan_universe.py:627-702 | Reconciling an accepted listing accepts it and returns it unchanged |
| `RequestCeilings.Ceilings.TakeToken` | caos/server/caos/api/__init__.py:200-211 | One call updates the bucket map and answers as specified |
| `RequestCeilings.LevelsAgree` | caos/server/caos/api/__init__.py:200-211 | After any trace the evicting map offers a subject what its own never-evicted bucket would |
| `RequestCeilings.EvictionInvisible` | caos/server/caos/api/__init__.py:208-210 | Every call of every trace with a non-decreasing clock is answered as without eviction and without other subjects |
| `RequestCeilings.IdleEntriesDropped` | caos/server/caos/api/__init__.py:207-211 | An admitted call that finds more than 4096 entries leaves only those of the last minute beside its own; no other call drops an entry and none alters one |
| `RequestCeilings.RateBound` | caos/server/caos/api/__init__.py:189-211 | In any window of T seconds a subject is admitted at most capacity + capacity * T / 60 times |
| `RequestCeilings.AdmittedExactly` | caos/server/caos/api/__init__.py:200-211 | A call is admitted if and only if counting it keeps the bound in every window that ends at it |
| `RequestBody.Admit` | caos/server/caos/api/__init__.py:274-295 | The request is forwarded with its bytes exactly when the whole body arrives within the cap; disconnection and excess are told apart |
| `RequestBody.Overflows` | caos/server/caos/api/__init__.py:287-290 | A body refused early would have been over the cap when complete |
| `RequestBody.Replay.Receive` | caos/server/caos/api/__init__.py:298-305 | The application receives the body's pieces in order, and the original channel only after the last |
| `RequestBody.ReplayFaithful` | caos/server/caos/api/__init__.py:296-307 | The replayed pieces join to the received bytes, each at most 64 KiB, and only the last announces the end, for an empty body too |
| `EventTail.CursorResumesExactly` | caos/server/caos/api/__init__.py:152-162 | A received id resumes at its own position if and only if it is at most the largest cursor |
| `EventTail.EventsAfterPosition` | caos/server/caos/storage/runs.py:815-820 | The events above the k-th id are the log from position k on |
| `EventTail.NextKeepsInv` | caos/server/caos/api/__init__.py:905-928 | Every append, poll, yield, cut-off, receipt, drop and reconnection keeps received and in-flight events a prefix of the log |
| `EventTail.ReceivedIsPrefix` | caos/server/caos/api/__init__.py:905-928 | In every state of every run the client holds a gap-free, duplicate-free, ordered prefix of the log |
| `EventTail.TerminalCloseDeliversAll` | caos/server/caos/api/__init__.py:917-922 | A tail that closes on a terminal run has sent the whole log |
| `EventTail.DeliveryComplete` | caos/server/caos/api/__init__.py:905-928 | Polls, yields and receipts, in any order, are bounded, and where none is left the client holds the whole log: a terminal run's stream has ended, and no live run's was ended by a poll |
| `EventTail.LogDelivered` | caos/server/caos/api/__init__.py:905-928 | From any connected state the stream can hand over the whole log by its own steps |
| `EventTail.LogOnlyGrows` | caos/server/caos/api/__init__.py:905-928 | What was received stays received and the log only grows |
| `TableReader.ReadTables` | caos/server/caos/artifacts/presentation.py:46-116 | The nested loops terminate and return the specified tables and failures |
| `TableReader.OnAnnouncement` | caos/server/caos/artifacts/presentation.py:57-78 | An announcing line updates tables, failures and the pending identity as specified |
| `TableReader.OnTable` | caos/server/caos/artifacts/presentation.py:79-113 | A row line claims an identity and is read as a table or recorded as malformed, as specified |
| `TableReader.TurnsAccounted` | caos/server/caos/artifacts/presentation.py:55-113 | Every turn keeps returned, failed and pending identities apart and together complete |
| `TableReader.EveryIdentityAccountedFor` | caos/server/caos/artifacts/presentation.py:46-116 | No identity is both returned and failed; every introduced one is one of them unless its alias superseded it; returned are exactly those introduced once, rendered, by a name of at most 90 characters, over a table that fits |
| `TableReader.ReturnedTablesSound` | caos/server/caos/artifacts/presentation.py:79-113 | A returned table has 1 to 40 distinct columns, is full width, and is cell for cell a visible header, its separator and the whole run of rows after it; it stands under its own identity, announced by the last announcing line above with only blank lines between, or named after its line |
| `TableReader.ReturnedExactly` | caos/server/caos/artifacts/presentation.py:52-113 | A table is returned for an identity if and only if it was introduced once, rendered, by a name that fits, and a sound table stands where one was taken for it; and then it is that table |
| `TablePlaces.PlaceUnder` | caos/server/caos/artifacts/presentation.py:66-87 | The table taken for an identity introduced once is the first row line under its announcement, blank lines aside |
| `TablePlaces.AnnouncedTableReturned` | caos/server/caos/artifacts/presentation.py:52-113 | A sound table under its announcement is returned cell for cell if and only if the identity was introduced once, rendered and by a name that fits |
| `TableReader.IdentityExactly` | caos/server/caos/artifacts/presentation.py:58-61 | A line is identified by its marker, else by its heading, else by being a known name |
| `TableReader.SeparatorCellExactly` | caos/server/caos/artifacts/presentation.py:92-95 | A separator cell is one or more dashes with a colon at either end or none |
| `TableFailures.NothingLost` | caos/server/caos/artifacts/presentation.py:57-116 | An identity announced outside the tables is returned or failed, unless the next line that is not blank announces exactly the name that stands for it |
| `TableFailures.NoTableLost` | caos/server/caos/artifacts/presentation.py:79-113 | Every row line in sight that stands in no table below a header and separator begins a table that is returned, or its identity failed |
| `TableFailures.CodesTell` | caos/server/caos/artifacts/presentation.py:57-116 | What each failure code says of the lines: introduced twice, announced out of sight, named too long or misshapen, or never given a table |
| `ChartNumbers.NormalForm` | caos/server/caos/artifacts/presentation.py:119-130 | Accepted exactly for numerals of at most 128 characters; the result meets the chart grammar, denotes the same number, is no longer and is its own normal form |
| `ChartNumbers.AcceptedExactly` | caos/server/caos/artifacts/presentation.py:122-124 | Accepted if and only if at most 128 characters: a minus or none, 0 or figures without a leading zero, and nothing more or a point and figures |
| `ChartNumbers.IntegersKept` | caos/server/caos/artifacts/presentation.py:122-130 | Every integer that prints in 128 characters, negative ones included, is kept as printed and denotes itself |
| `ChartNumbers.DenotesScaled` | caos/server/caos/artifacts/presentation.py:126-130 | The number of a numeral is that of all its figures together, over ten for each decimal |
| `ChartNumbers.ChartNumberFixed` | caos/server/caos/contracts.py:477-498 | Everything the chart contract accepts normalises to itself |
| `ChartNumbers.CanonicalUnique` | caos/server/caos/contracts.py:477-498 | A number has at most one canonical numeral |
| `ChartNumbers.SameNumberSameSpelling` | caos/server/caos/artifacts/presentation.py:119-130 | Two accepted numerals get one string if and only if they denote one number |
| `AuditChain.CheckRow` | caos/server/caos/audit/chain.py:42-55 | One row's findings, and what the next row must link to and be numbered, re-synchronised on damage |
| `AuditChain.VerifyChain` | caos/server/caos/audit/chain.py:32-63 | The loop returns the specified findings in order |
| `AuditChain.RowFoundExactly` | caos/server/caos/audit/chain.py:42-54 | Whatever else is wrong with a row, it is given one finding for a wrong number, one for a wrong link and one for a wrong digest, in that order and no others |
| `AuditChain.FindingsExactly` | caos/server/caos/audit/chain.py:32-63 | For any rows and any head a finding is reported if and only if it is true of some row, numbers counting on from the last one stated, or the head does not name the last row |
| `AuditChain.LinkedIsChain` | caos/server/caos/storage/store.py:504-528 | Rows are linked throughout if and only if they are what appending from GENESIS writes |
| `AuditChain.VerifiedExactly` | caos/server/caos/audit/chain.py:32-63 | With digests present, no finding if and only if the rows are an appended chain and the head names the last, or neither exists |
| `AuditChain.UndigestedRowPasses` | caos/server/caos/audit/chain.py:49-54 | A row without a digest that cannot be encoded verifies, which is why digests must be present |
| `AuditChain.OneHeadOneChain` | caos/server/caos/audit/chain.py:32-63 | Two row lists that verify against one head are equal |
| `AuditChain.TamperingReported` | caos/server/caos/audit/chain.py:32-63 | Any other row list with digests present is reported against the head of an appended chain |
| `AuditChain.DeletionLocated` | caos/server/caos/audit/chain.py:43-48 | Deleting a run of rows before the last gives exactly one sequence and one link finding, both at the first survivor |
| `AuditChain.TruncationLocated` | caos/server/caos/audit/chain.py:57-62 | Truncating the tail gives exactly one head mismatch |
| `AuditChain.EditLocated` | caos/server/caos/audit/chain.py:49-54 | Editing a row under its old number, link and digest gives exactly one digest mismatch there |
| `AuditChain.RedigestLocated` | caos/server/caos/audit/chain.py:47-55 | Changing a stored digest is located at its row and at the link that named it |
| `AuditChain.ForgeryLocated` | caos/server/caos/audit/chain.py:47-62 | Changing a row's content and recomputing its digest gives exactly one finding: the next row's link, or the head mismatch on the last row |
| `AuditChain.InsertionLocated` | caos/server/caos/audit/chain.py:42-62 | Whatever row is inserted, exactly its own findings are reported and then the next row's number and link, or the head behind the last row |
| `AuditChain.InsertionReported` | caos/server/caos/audit/chain.py:43-62 | No insertion goes unreported, for any digest function and any row |
| `AuditChain.ForgedInsertionLocated` | caos/server/caos/audit/chain.py:43-62 | A row inserted as an append would have written it gives exactly a sequence and a link finding at the next row, or one head mismatch |
| `AuditChain.SwapLocated` | caos/server/caos/audit/chain.py:42-62 | Swapping two neighbours gives exactly a sequence and a link finding at each and at the row after them, or the head mismatch behind the last row |
| `DiffParser.ParseDiff` | caos/scripts/recorded_review.py:118-154 | The line loop returns the specified path-to-added-lines map |
| `DiffParser.HeaderReads` | caos/scripts/recorded_review.py:126-130 | A file header of plain paths reads back as its new path |
| `DiffHeaders.QuotedHeaderReads` | caos/scripts/recorded_review.py:127-128 | A header reads back as its second path, whichever of the two are in quotes |
| `DiffHeaders.UnprefixedHeaderReads` | caos/scripts/recorded_review.py:128 | A header whose first path has no a/ gives all that follows the first " b/" |
| `DiffHeaders.QuotedPathMoves` | caos/scripts/recorded_review.py:126-139 | For any text in quotes as a path, itself without a quote or tab, the file is reported to add nothing and its lines to be added under the path with b/ in front |
| `DiffParser.HunkStartReads` | caos/scripts/recorded_review.py:145-148 | A hunk header reads back as its new-file line number, counts given or omitted |
| `DiffHeaders.HunkStartExactly` | caos/scripts/recorded_review.py:145-148 | A line is a hunk header if and only if it is two ranges of figures, counts given or omitted, between the markers and with anything behind; its number is that of the figures of the new range |
| `DiffParser.AddedLinesRecovered` | caos/scripts/recorded_review.py:118-154 | A printed multi-file, multi-hunk diff of plain paths parses to each path's added lines in order, numbered, when its added lines hold no break character and do not begin "++ " and every other line is quiet |
| `DiffParser.AddedLinesTrue` | caos/scripts/recorded_review.py:145-153 | A number given to an added line is its true line in the new file |
| `DiffParser.RecoveredExactly` | caos/scripts/recorded_review.py:124-153 | Where every other line is quiet, a printed diff is recovered if and only if no hunk adds a line that holds a character at which splitlines breaks, or whose text begins "++ " |
| `DiffHarm.HarmlessExactly` | caos/scripts/recorded_review.py:124-153 | A context line, dropped line, section title, metadata or leading line leaves every diff to be recovered, whatever else it holds, if and only if it is quiet: what a break leaves over of it is inert, or, outside the hunks, it names no path and, among metadata, adds nothing |
| `DiffHarm.LeftoverInertExactly` | caos/scripts/recorded_review.py:124-153 | A run of lines changes nothing in every state with a path if and only if each of them is inert |
| `DiffParser.ParsedReportable` | caos/scripts/recorded_review.py:124-152 | Of any text whatever, no reported text holds a break character or begins "++ " |
| `DiffParser.UnclearNeverRecovered` | caos/scripts/recorded_review.py:124-152 | A diff that adds a line of either kind is what no text at all parses to |
| `DiffParser.InertExactly` | caos/scripts/recorded_review.py:125-153 | The lines that change nothing in any state of the reader, characterised by their beginnings |
| `DiffLosses.FormFeedLosesTail` | caos/scripts/recorded_review.py:124 | A diff that adds one line with a form feed, of which only what is before it is reported |
| `DiffLosses.PlusesRedirect` | caos/scripts/recorded_review.py:134-141 | A diff whose added line "++ x" is dropped, and whose next added line is reported under the path "x" |
| `DiffLosses.DroppedTailAdds` | caos/scripts/recorded_review.py:124-153 | A diff that adds nothing, and of whose dropped line the tail "+y" is reported as added |
| `VaultFiles.NextKeepsInv` | caos/server/caos/atomic_files.py:64-85 | Every step of every publisher, failures and crashes included, keeps published names true and held inodes private |
| `VaultFiles.PublishedNamesTellTruth` | caos/server/caos/atomic_files.py:64-85 | In every state of every run with at most two publishers to a temporary name, or three to a left-over one, each hash-addressed file holds bytes that hash to its name |
| `VaultFiles.PublicationNeverClashes` | caos/server/caos/atomic_files.py:64-70 | With temporary names new and of their own, no publisher of admissible bytes meets a mismatch, or finds its temporary name taken or gone |
| `VaultFiles.PublishedIsThere` | caos/server/caos/atomic_files.py:71-85 | A publisher that finished has exactly its own bytes at its name, from then on |
| `VaultProgress.LookTells` | caos/server/caos/atomic_files.py:39-65 | A job is refused if and only if a path part or the suffix is empty or not plain, its size is not within the limit, or its digest is not that of its content; otherwise it goes by whether its target is there |
| `VaultProgress.PresentTells` | caos/server/caos/atomic_files.py:65-70 | In any state a file that stands there is of another size, of another digest, or published, as it is |
| `VaultProgress.RepublicationSucceeds` | caos/server/caos/atomic_files.py:65-70 | In every state of every run under the room condition, working steps of a publisher that found its target lead to Published and change nothing |
| `VaultProgress.RepublisherGoesOn` | caos/server/caos/atomic_files.py:65-70 | Such a publisher always has a working step to take |
| `VaultProgress.LoneWriterPublishes` | caos/server/caos/atomic_files.py:71-85 | A writer with a new temporary name, working alone, ends in Published with its content under its target and no temporary name left |
| `VaultProgress.WriterCanPublish` | caos/server/caos/atomic_files.py:71-85 | Such a writer can always go on to that end |
| `VaultFiles.OpenFileKeepsBytes` | caos/server/caos/atomic_files.py:71-84 | An opened published file keeps its bytes, and its name stays, whatever is published later |
| `VaultReads.ReadVerified` | caos/server/caos/atomic_files.py:88-158 | Under any pattern of short reads the loop ends, and returns exactly the file's bytes if and only if key, metadata, size and digest are right |
| `VaultReads.PublishedReadsBack` | caos/server/caos/atomic_files.py:85-158 | What a finished publisher published stays readable under the key that publication returned, if and only if the reader admits the size and the digest has 64 characters; nothing but its bytes is readable with its digest |
| `VaultReads.KeyReadsBack` | caos/server/caos/atomic_files.py:85-107 | The key returned for a safe identity and a digest without a slash reads back as the path parts and the file's name, and is safe |
| `VaultReads.KeysNameTargets` | caos/server/caos/atomic_files.py:66-85 | Two publishers are returned one key if and only if they publish under one name |
| `VaultReads.SafeKeyExactly` | caos/server/caos/atomic_files.py:100-107 | A key is safe if and only if it is relative, has a segment that names something, and no segment is ".." |
| `VaultReads.KeyOfSegments` | caos/server/caos/atomic_files.py:100-101 | Every key is segments without a slash, joined |
| `VaultClashes.ClashesExactly` | caos/server/caos/atomic_files.py:64-85 | No run makes an admissible publisher fail by another's work if and only if every publisher whose target is absent has a new temporary name of its own |
| `VaultClashes.TruthExactly` | caos/server/caos/atomic_files.py:71-84 | Published names tell the truth in every run if and only if at most two publishers whose target is absent share a temporary name, or three where a file is left under it |
| `WorkspaceAuthority.ReduceKeepsInv` | caos/frontend/src/lib/workspaceAuthority.ts:54-131 | Loading holds exactly when a request is pending, and what is pending is the current context, for empty identifiers too |
| `WorkspaceAuthority.PendingClauseRedundant` | caos/frontend/src/lib/workspaceAuthority.ts:45-52 | On reachable states a response is accepted if and only if its scope is the case and its context current |
| `WorkspaceAuthority.CapturedContextMatchesExactly` | caos/frontend/src/lib/workspaceAuthority.ts:37-43 | A captured context matches later if and only if generation, case and run were the same at every state between |
| `WorkspaceAuthority.LateResponseExactly` | caos/frontend/src/lib/workspaceAuthority.ts:103-108 | A response settles the workspace if the authority it was captured under still stands, and changes nothing otherwise |
| `WorkspaceAuthority.SettledByOwnResponse` | caos/frontend/src/lib/workspaceAuthority.ts:103-108 | Ready or failed always comes from a response captured for exactly what is shown, and unchanged since |
| `WorkspaceAuthority.StaleResponsesInvisible` | caos/frontend/src/lib/workspaceAuthority.ts:54-131 | Removing every stale response from an event sequence leaves the final state the same |
| `WorkspaceAuthority.RequestsNeverMove` | caos/frontend/src/lib/workspaceAuthority.ts:54-131 | The case and run shown depend on the navigation events alone |
| `WorkspaceAuthority.CaseShown` | caos/frontend/src/lib/workspaceAuthority.ts:54-118 | The case shown is the one last hydrated or selected, or null once it was invalidated |
| `WorkspaceAuthority.NoCaseShown` | caos/frontend/src/lib/workspaceAuthority.ts:54-118 | Until a case is hydrated or selected none is shown |
| `WorkspaceAuthority.RunShownExactly` | caos/frontend/src/lib/workspaceAuthority.ts:54-131 | A run is shown under a case if and only if some hydration or selection brought up that run of that case and no event since displaced it |
| `WorkspaceAuthority.RunWasAskedFor` | caos/frontend/src/lib/workspaceAuthority.ts:54-131 | Any run shown under a case was asked for under that case, and both have been shown in every state since |
| `WorkspaceAuthority.ChangeOpensRequest` | caos/frontend/src/lib/workspaceAuthority.ts:54-131 | A new generation opens if and only if what is shown changes, the workspace is first hydrated or a case is requested; it is loading what is now shown, or idle under no case; nothing else but a response does anything |
| `WorkspaceAuthority.GenerationCounts` | caos/frontend/src/lib/workspaceAuthority.ts:54-131 | In every state of every run the generation is the number of times the case was asked for anew |
| `MarkdownCells.TableCells` | caos/frontend/src/lib/artifactReader.ts:19-33 | The character loop returns the cells of the specification |
| `MarkdownCells.RowReadsBack` | caos/frontend/src/lib/artifactReader.ts:19-33 | Trimmed cells written with outer pipes and escapes read back, empty cells and cells with pipes or backslashes included |
| `MarkdownCells.CellsForm` | caos/frontend/src/lib/artifactReader.ts:29-32 | Any table line gives 1 to 64 trimmed cells, and writing them reads back the same |
| `MarkdownCells.OuterPipesOptional` | caos/frontend/src/lib/artifactReader.ts:27-32 | Trimmed cells between pipes read back with both outer pipes, either or none, wherever an empty end cell does not need one, up to 64 of them |
| `MarkdownCells.UnpipedIsNoRow` | caos/frontend/src/lib/artifactReader.ts:23-28 | A line without a pipe is no table line |
| `MarkdownCells.EscapedIsNoRow` | caos/frontend/src/lib/artifactReader.ts:24-28 | Nor is one whose pipes are all escaped |
| `MarkdownBlocks.FrontmatterStripped` | caos/frontend/src/lib/artifactReader.ts:35-42 | The body after a frontmatter survives if and only if the metadata does not close it early |
| `MarkdownBlocks.FrontmatterKept` | caos/frontend/src/lib/artifactReader.ts:35-42 | A document is left whole if and only if it does not open with frontmatter, or its frontmatter is closed neither by a line nor by the end |
| `MarkdownBlocks.RuleExactly` | caos/frontend/src/lib/artifactReader.ts:57 | A cell under a header is three or more dashes with a colon at either end or none |
| `MarkdownBlocks.TableRows` | caos/frontend/src/lib/artifactReader.ts:58-65 | The inner loop takes the rows up to a blank line or a line that is no table line |
| `MarkdownBlocks.ReadBlocks` | caos/frontend/src/lib/artifactReader.ts:44-85 | The line loop returns the blocks of the specification |
| `MarkdownBlocks.BlocksWellFormed` | caos/frontend/src/lib/artifactReader.ts:47-69 | For any markdown every table block is rectangular with 1 to 64 columns and at most 2000 rows of trimmed cells, and no block is empty |
| `MarkdownBlocks.InkConserved` | caos/frontend/src/lib/artifactReader.ts:44-85 | For any markdown the blocks' texts hold every character but white space and "#" exactly once, in order |
| `MarkdownBlocks.BlankLineSeparates` | caos/frontend/src/lib/artifactReader.ts:44-85 | The blocks around a blank line are those before it followed by those after it |
| `MarkdownBlocks.TableReadsBack` | caos/frontend/src/lib/artifactReader.ts:44-85 | Any rectangular table of 1 to 64 columns and at most 2000 rows, written and read, is one table block with exactly those headers and rows |
| `MarkdownBlocks.DocumentReadsBack` | caos/frontend/src/lib/artifactReader.ts:35-85 | Any document of headings, paragraphs and tables behind a frontmatter reads back as exactly those blocks |
| `PromptText.SubstitutedFixed` | caos/scripts/regenerate_deploy_v_integrity.py:145-154 | Replacing build ids again changes nothing and finds as many |
| `PromptText.MatchesExactly` | caos/scripts/regenerate_deploy_v_integrity.py:145-150 | A build id is found exactly behind the label and any white space, as 64 lower-case hexadecimal digits |
| `PromptPlaces.OneCounted` | caos/scripts/regenerate_deploy_v_integrity.py:145-152 | One replacement is counted if and only if exactly one place of the text carries a build id behind its label |
| `PromptPlaces.OnlyOneReplaced` | caos/scripts/regenerate_deploy_v_integrity.py:145-150 | Where one is counted, the substitution replaces the digits at that place and nothing else |
| `BundleIntegrity.FileInventory` | caos/scripts/regenerate_deploy_v_integrity.py:50-62 | The loop inventories every file that is not compiled Python by size and digest |
| `BundleIntegrity.InventoriedExactly` | caos/scripts/regenerate_deploy_v_integrity.py:50-62 | A file is in the inventory, with its size and digest, if and only if no component of its path is `__pycache__` and its name does not end in `.pyc` behind a stem |
| `BundleIntegrity.UpdateSkills` | caos/scripts/regenerate_deploy_v_integrity.py:106-120 | One pass over the manifest updates every skill in both documents, wherever the integrity file lists it, or reports a folder without an entry file |
| `BundleIntegrity.UpdatedSkillTells` | caos/scripts/regenerate_deploy_v_integrity.py:112-119 | The fields a skill is given are the size and digest of its entry file and the number and inventory of its files |
| `BundleDocuments.ManifestTells` | caos/scripts/regenerate_deploy_v_integrity.py:106-120 | The manifest lists the skills as before, each entry's four fields brought up to date with its folder, and keeps everything else |
| `BundleDocuments.BaselineTells` | caos/scripts/regenerate_deploy_v_integrity.py:122-126 | The baseline is given every folder's inventory and the digest of all of it but that digest, and keeps everything else |
| `BundleDocuments.IntegrityTells` | caos/scripts/regenerate_deploy_v_integrity.py:128-136 | The integrity file is given updated skills, the digests of the baseline, registry and manifest files as written, and as build id the digest of all of it but that id, and keeps everything else |
| `BundleDocuments.RetrievalTells` | caos/scripts/regenerate_deploy_v_integrity.py:138-144 | The retrieval index is given the build id of the integrity file and keeps everything else |
| `BundleDocuments.PromptTells` | caos/scripts/regenerate_deploy_v_integrity.py:145-154 | A prompt is given the build id at the one place that carries one, and keeps everything else |
| `BundleIntegrity.GeneratedFiles` | caos/scripts/regenerate_deploy_v_integrity.py:85-155 | The whole generation returns the specified files or the specified failure |
| `BundleIntegrity.RegenerationSettles` | caos/scripts/regenerate_deploy_v_integrity.py:158-176 | Run again on what it wrote, regeneration produces the same files and nothing is stale |
| `BundleIntegrity.BuildIdBinds` | caos/scripts/regenerate_deploy_v_integrity.py:122-136 | Under an injective digest one build id stands for one set of skill files outside `__pycache__` and other than `.pyc`, byte for byte, one registry, manifest, baseline and integrity file |
| `BundleIntegrity.CheckCatchesEveryEdit` | caos/scripts/regenerate_deploy_v_integrity.py:165-172 | Two bundles with the same root files that both pass `--check` have the same skill files outside `__pycache__` and other than `.pyc`, byte for byte |
| `BundleChecks.EditReported` | caos/scripts/regenerate_deploy_v_integrity.py:165-172 | Writing other bytes to any such file of a passing bundle, or adding one, makes `--check` fail |
| `BundleChecks.GeneratedExactly` | caos/scripts/regenerate_deploy_v_integrity.py:85-155 | Generation succeeds if and only if the root files are there, the four documents are objects, both lists are exactly the skill folders, every folder has its entry file, and each prompt carries one build id |
| `BundleIntegrity.PromptsCarryId` | caos/scripts/regenerate_deploy_v_integrity.py:145-154 | Each prompt is written with the generated build id, once |
| `BundleIntegrity.CheckedBundleCarriesOneId` | caos/scripts/regenerate_deploy_v_integrity.py:134-172 | A bundle that passes `--check` carries one build id throughout: integrity file, retrieval index and, once each, both prompts |

## Left out

- Opening and screening workbooks, reading cells, date formats, Unicode normalisation and upper-casing of identifiers: library behaviour; reconciliation starts from normalised rows and takes the findings raised before it as given.
- Finding texts: a finding is its kind and location.
- NaN among the loan figures: a figure is a finite number or absent.
- IEEE rounding in the token bucket: tokens and times are exact reals.
- The stream and preview slot counters, identity headers and routing around the two guards.
- Spooling to disk and failures of the spool; the body is a byte sequence.
- `EventTail.NextKeepsInv`: the event fetch and the status read of an empty poll are one step, since nothing is awaited between them, and keepalive comments are not events.
- Python's `int` on a header: a parameter required to read printed natural numbers back; other spellings it accepts are covered by the range check only.
- The line helpers of the table reader and the order in which its failures are listed.
- The decimal library: a numeral is formatted as its own text, which is what `format(number, "f")` gives for the accepted syntax; the finiteness test cannot fail within 128 characters.
- Period compatibility, gap checks and chart assembly in the same file: short checks beside the reader.
- `AuditChain.CheckRow`: a sequence number is an integer or missing; other types a stored field could have are not modelled, and `chain_key` is not compared between rows, as in the code.
- The database locking around appending to the audit chain.
- `DiffParser.AddedLinesRecovered`: paths are plain (no quote, tab, break character or " b/" inside), which QuotedPathMoves shows to be needed of quoted ones; digits in hunk headers are ASCII, and the order of the files dictionary is not modelled.
- `DiffParser.RecoveredExactly`: which lines that are not quiet one given diff still tolerates, say behind its last added line, is not characterised; HarmlessExactly says which every diff tolerates.
- The rule table, excerpts and verdict of the recorded review.
- `VaultFiles.NextKeepsInv`: symbolic links, the containment check, directory creation and durability after power loss are not modelled; a rename is atomic.
- `VaultReads.ReadVerified`: the descriptor chain is one optional regular file whose bytes do not change while open, which OpenFileKeepsBytes justifies for published files.
- Generations beyond 2^53 in the reducer.
- A late failure in the same generation can overwrite "ready" in the reducer; nothing here says otherwise.
- Evidence-reference normalisation and value flattening in the artifact reader.
- The bundle-tree checks for symbolic links and stray entries; the kinds of failure are coarser than the exceptions.
