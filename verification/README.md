# Verified models of the PATANYX release and gate scripts

A Dafny 4.11 project that models the scripts which publish, check and gate PATANYX
releases, and proves what they promise. `dafny verify dfyconfig.toml` checks all
of it.

The engine-advisory monitor reads Microsoft's security notes, selects one version,
corroborates it in the update catalog, signs it and publishes it, and must never
publish below what it published before. It keeps two files, the served manifest
and last-good, and writes them one after the other. The model has three layers:
the page (`AdvisoryPage`), one run with every exit and every point of death
(`AdvisoryMonitor`), and many processes interleaved over the two files with the
lock, crashes and losses of the served file (`PublisherSteps`). The invariant that
makes the "unchanged" answer right, an authentic served floor is never below
last-good, is stated nowhere in the program; it is proved here for every reachable
state.

The Windows exe checker is a bounds-checked parser over arbitrary bytes
(`PeImage`, `PeCheck`). It is total, every read is a byte the loader maps, and two
files that agree on the headers and the file-backed section bytes are judged alike
(`PeNonInterference`). The layout follows the Microsoft PE Format specification,
sections "Optional Header", "Section Table (Section Headers)", "Import Directory
Table", "Delay-Load Import Tables" and "The Load Configuration Structure".

The other modules: `CommentBlanker` (comments blanked out of sources, equal to a
token lexer and idempotent), `Scheduler` and `ListenerCalls` (deferred work run
through twenty rounds, and which listeners are called in them), `DomTree` (child
lists and parent links changed in place, after section 4.2.3 "Mutation algorithms"
of the WHATWG DOM Standard), `LanguageRegistry` (the version a pair ships at),
`CatalogRouter` (pair tokens and the catalog's router), `BookmarkStore` (commands
over a shared Quick Access order), `PseudoLocale` (accenting around placeables)
and `LinuxFeeds` (the gate on two update feeds). `Versions` holds four-field
versions and their text, `Basics` what several modules share.

Beside each module that computes stands one that says what its answers mean in
terms of the input alone, character by character or byte by byte, and proves that
the computation gives just those: `NoticeMeaning` (pages and catalog), `RunExits`
(exits and outcomes of a run), `PeMeaning` (bytes of an exe), `CommentMeaning`
(comments and literals), `RoundEvents` and `ListenerCalls` (what each round
calls), `RegistryMeaning` (versions, tokens and rows), `StoreMeaning` (bookmark
commands), `PlaceableMeaning` (values and placeables) and `FeedMeaning` (reported
failures).

## What the proofs turned up

- A live run whose clock is more than seven days behind the date of the served
  manifest sees it as invalid and can publish a lower floor over it, down to
  last-good. `AdvisoryMonitor.RollbackPossibleIff` gives the exact condition. With
  a clock that does not go back, or clocks within a week of each other, the floor
  never goes down.
- Exit 6 is documented as "publication could not be written" and exit 7 as a
  configuration error. The directory sync comes after the rename, and the
  last-good write after the publication, so either may leave a new manifest
  served. `AdvisoryMonitor.FailedRunPublishedIff` says exactly when.
- "Nothing is ever published below" the published floor fails when a publication
  was not recorded, the served file is lost, and the page then names a lower
  version. `AdvisoryMonitor.LaterMayBeBelowIff` gives the exact condition.
- The branches at lines 686-689, 714-717 and 725-726 of the monitor cannot be
  reached with arguments its own parser accepts
  (`AdvisoryMonitor.UnverifiedRefusalIsDead`,
  `AdvisoryMonitor.MissingOptionsAreDead`).
- `choose_version` is documented as returning nothing for the split vocabulary
  layout, and a comment asks tokens for exactly two subtags; the code accepts the
  split layout and three subtags, and the model follows the code.
- `version_key` is documented as making 2.1 equal to 2.1.0; any version with ".0"
  added ranks above itself (`LanguageRegistry.TrailingZeroRanksHigher`), and
  `LanguageRegistry.NumericVersionsTieIff` says which versions do tie.
- The catalog router can let one token name two pairs: a row spelt "zh-hans"
  beside the published "zh-Hans". `CatalogRouter.RoutedTokensUniqueIff` shows that
  this is the only way for English pairs, and `CatalogRouter.SameTokenIff` what
  decides it for all others. The check on emitted names also lets one last newline
  through (`CatalogRouter.LastNewlineIsLetThrough`).
- A page script that writes `document.readyState` can have its listeners called
  out of the lifecycle's order (`ListenerCalls.PageMayReverseStates` is an
  example). `ListenerCalls.LifecycleBrokenIff` says exactly when, and
  `ListenerCalls.CalledInRoundIff` which listener each round calls.
- A folder name that lowercasing makes longer than forty characters is cut again
  when it comes back (`BookmarkStore.NormIsStableIff`,
  `BookmarkStore.DottedNameIsCut`).
- The Linux feed gate does not enforce that the bridge is published once: 1.0.6
  may be re-signed (`LinuxFeeds.BridgeMayBeRepeated`), and nothing else changes
  the old feed.
- `insertBefore` with the node itself as reference appends, and no move is refused
  for making a cycle, unlike in the standard. `replaceChildren` does not maintain
  parent links.
- The bookmark id scheme repeats an id after a deletion.

## How the source is rendered

Regular expressions, tag stripping, entity decoding and calendar parsing are
inputs: a page arrives with what they find in it. The signer and verifier are
concrete as far as `crates/update/src/advisory.rs` goes (schema, bound on majors,
date); that a signature cannot be forged is the `signer` field of an envelope. The
verifier is taken to answer the same on the same file, key, baseline and clock.
Fetching, the clock and the outcome of each write are parameters, one per run in
`AdvisoryMonitor` and one per step in `PublisherSteps`, where an abort stands for
any internal error. Callbacks of the scheduler are arbitrary functions of
everything that has happened so far. Lowercasing in `BookmarkStore` is an
arbitrary function that leaves what it has lowered alone. SHA-256 in `LinuxFeeds`
is an arbitrary function, assumed free of collisions only where the frozen feed
needs it. DLL names in `PeCheck` are bytes and lowercased as ASCII, which decides
the same prefix tests as decoding and Unicode lowercasing. `int(len * 0.4)` in the
pseudo-locale is the integer part of two fifths.

## Model

| member | source | states |
|---|---|---|
| `Versions.ParsedSurvivesPersistence` | scripts/engine-advisory-monitor.py:131-146 | every version `parse4` accepts is read back unchanged after being written out, whatever the accepted text looked like |
| `Versions.PersistsIff` | scripts/engine-advisory-monitor.py:131-146 | a quadruple is read back exactly when each field fits u32 and its canonical text is at most 32 characters |
| `Versions.LargestQuadrupleIsLost` | scripts/engine-advisory-monitor.py:134-135 | the largest u32 quadruple is 43 characters long and is not read back |
| `Versions.CanonicalNotLonger` | scripts/engine-advisory-monitor.py:139-146 | a canonical decimal is never longer than the numeral it came from |
| `Versions.DecimalValue` | scripts/engine-advisory-monitor.py:139-146 | reading a written number gives the number |
| `Versions.OrderIsTotal` | scripts/engine-advisory-monitor.py:641 | the tuple order is total and `max` is an upper bound that is one of its arguments |
| `Versions.LessIffLighter` | scripts/engine-advisory-monitor.py:641 | on fields that fit u32 the order of versions is the order of the numbers their fields spell in base 2 to the 32, and `max` is the greater |
| `Versions.Parse4Iff` | scripts/engine-advisory-monitor.py:131-142 | `parse4` accepts exactly the texts of at most 32 characters that are four numerals joined by dots, each below 2 to the 32, and returns them in order |
| `Versions.DigitWeighs` | scripts/engine-advisory-monitor.py:139-141 | a numeral is read digit by digit, each ten times what follows it |
| `AdvisoryPage.SplitSections` | scripts/engine-advisory-monitor.py:256-294 | accepted exactly when the content container is there, something is dated and the dated sections are newest-first; then the result is the sections of the container |
| `AdvisoryPage.SectionsConserveBody` | scripts/engine-advisory-monitor.py:267-280 | sections and headings laid end to end are the whole container: nothing on the page vanishes |
| `AdvisoryPage.AdjacentGivesGlobal` | scripts/engine-advisory-monitor.py:287-293 | comparing neighbours in the list of dated sections orders every dated pair, and conversely |
| `AdvisoryPage.Find` | scripts/engine-advisory-monitor.py:264-267 | the first place the marker occurs, or none |
| `AdvisoryPage.SplitBody` | scripts/engine-advisory-monitor.py:268-286 | one section before the first heading and one after each, dated only under an h2 that is a plain date, each with its own material |
| `AdvisoryPage.NoticeIsAttributed` | scripts/engine-advisory-monitor.py:341-364 | every CVE of a notice stands in its association sentence and has a link whose target names it |
| `NoticeMeaning.ClassifyIff` | scripts/engine-advisory-monitor.py:297-369 | by the paragraph alone: it is passed over, refused or taken exactly when it need not be read, must but cannot be, or can be, and a notice carries just the builds its own Stable and Extended Stable clauses spell |
| `NoticeMeaning.PointsAtItselfIff` | scripts/engine-advisory-monitor.py:354-360 | a link is in order exactly when its target is on the Security Update Guide's host and ends in a slash and the link's text, slashes after it aside |
| `AdvisoryPage.SelectCandidate` | scripts/engine-advisory-monitor.py:372-439 | returns a candidate exactly when some section is selected: first with a notice, dated, everything above it read in full, one Stable build, no clash elsewhere |
| `NoticeMeaning.SelectedIff` | scripts/engine-advisory-monitor.py:372-439 | a version is selected from a section if and only if the section is dated at most a day ahead, everything down to it can be read and nothing above it is a notice, its notices name that build in a Stable clause and no other in any, and no paragraph elsewhere ties one of their CVEs to another build |
| `NoticeMeaning.ContainsIff` | scripts/engine-advisory-monitor.py:426 | a text mentions a CVE exactly when it can be cut before and after it |
| `AdvisoryPage.SelectedUnique` | scripts/engine-advisory-monitor.py:380-439 | the selection rule admits at most one section and one candidate |
| `AdvisoryPage.NothingNewerIsHidden` | scripts/engine-advisory-monitor.py:381-398 | no section above the selected one and none with a strictly later date holds a notice or unread relevant material |
| `AdvisoryPage.PageHidesNothingNewer` | scripts/engine-advisory-monitor.py:256-294 | the same for whole pages: no section of the page dated after the candidate holds a notice, readable or not |
| `AdvisoryPage.HistoryOnlyVetoesByClash` | scripts/engine-advisory-monitor.py:420-437 | older sections change the answer exactly when one of them ties a selected CVE to another build |
| `AdvisoryPage.UnrelatedHistoryIsInert` | scripts/engine-advisory-monitor.py:425-428 | older sections that mention none of the selected CVEs change nothing |
| `AdvisoryPage.SelectedIsReadable` | scripts/engine-advisory-monitor.py:365-369 | a selected version was parsed from a text and so survives persistence |
| `AdvisoryPage.ReadNotices` | scripts/engine-advisory-monitor.py:382-386 | refuses when a relevant paragraph cannot be read, else exactly the notices of the section |
| `AdvisoryPage.ScanOthers` | scripts/engine-advisory-monitor.py:422-437 | true exactly when no other section clashes |
| `AdvisoryPage.PutsForwardUnique` | scripts/engine-advisory-monitor.py:650-661 | a page puts forward at most one candidate, and one that survives persistence |
| `AdvisoryPage.Discover` | scripts/engine-advisory-monitor.py:650-661 | splitting then selecting returns what the page puts forward, or refuses when it puts nothing forward |
| `NoticeMeaning.PageIff` | scripts/engine-advisory-monitor.py:650-661 | a page puts a version forward exactly when its sections, dated ones newest-first, have one that does |
| `NoticeMeaning.SplitsMeans` | scripts/engine-advisory-monitor.py:256-286 | the sections are those of the first content container, and one is dated exactly when its heading is an h2 that spells a plain date |
| `AdvisoryPage.CorroborateCatalog` | scripts/engine-advisory-monitor.py:461-498 | returns a row exactly when one row alone concerns the build and that row is sound |
| `NoticeMeaning.CorroboratedIff` | scripts/engine-advisory-monitor.py:461-498 | row i backs the build exactly when it alone has seven cells and the x64 title with that build, and has the title's major, the right product and classification, a date at most a day ahead and one positive size of its own |
| `AdvisoryMonitor.UnverifiedRefusalIsDead` | scripts/engine-advisory-monitor.py:680-689 | the refusal to replace an unverifiable served file cannot be reached with arguments `parse_args` accepts |
| `AdvisoryMonitor.ProceedIsBounded` | scripts/engine-advisory-monitor.py:663-689 | what is let through is at or above the compiled floor and all published floors, within the bound on majors, and strictly above a valid served floor |
| `AdvisoryMonitor.RunShape` | scripts/engine-advisory-monitor.py:628-768 | a run leaves the disk alone or publishes its candidate under the bounds, nothing else |
| `AdvisoryMonitor.PublishingKeepsConsistent` | scripts/engine-advisory-monitor.py:754-768 | wherever the two writes stop, an authentic served floor stays at or above last-good and last-good rises |
| `AdvisoryMonitor.RunKeepsConsistent` | scripts/engine-advisory-monitor.py:628-768 | every run, on every exit and at every death, keeps the served floor at or above last-good and last-good readable and rising |
| `AdvisoryMonitor.PublicationIsBounded` | scripts/engine-advisory-monitor.py:663-676 | whatever is put in place verifies, is at or above the compiled floor and last-good, and within both bounds on majors |
| `AdvisoryMonitor.FreshEnvelopeVerifies` | crates/update/src/advisory.rs:114-224 | an envelope for a readable, non-zero version within the bound, dated now, is accepted by the verifier |
| `AdvisoryMonitor.QuietExits` | scripts/engine-advisory-monitor.py:644-761 | fetch, refused and sign exits and dry runs leave both files as they were, exit 6 leaves last-good, and last-good changes only once its verified envelope is in place |
| `AdvisoryMonitor.RaiseOrBootstrap` | scripts/engine-advisory-monitor.py:677-685 | a bootstrap happens only where nothing valid is served and the candidate equals what was published or nothing was; any other publication is strictly higher |
| `AdvisoryMonitor.UnchangedMeansServed` | scripts/engine-advisory-monitor.py:684-685 | a live run that answers "unchanged" has an authentic served floor equal to the candidate |
| `AdvisoryMonitor.RerunWritesNothing` | scripts/engine-advisory-monitor.py:754-768 | once an envelope is in place, even if last-good was never written, a live run on the same page writes neither file |
| `AdvisoryMonitor.RunDoesNotLower` | scripts/engine-advisory-monitor.py:670-685 | a run whose clock is not a week behind the served date does not lower or remove an authentic served floor |
| `AdvisoryMonitor.RollbackPossibleIff` | scripts/engine-advisory-monitor.py:574-581 | a live run can lower an authentic served floor exactly when its clock is over seven days behind the manifest and there is room above last-good and the compiled floor |
| `AdvisoryMonitor.LoweringNeeds` | scripts/engine-advisory-monitor.py:574-581 | a lowered floor implies the clock condition and the room |
| `AdvisoryMonitor.LoweringWitness` | scripts/engine-advisory-monitor.py:574-581 | under those conditions an answer that lowers the floor exists |
| `AdvisoryMonitor.HistoryNeverLowersServed` | scripts/engine-advisory-monitor.py:628-768 | over any history of runs on a clock that does not go back, crashes included, the served floor never goes down |
| `AdvisoryMonitor.HistoryNeverLowersLastGood` | scripts/engine-advisory-monitor.py:628-768 | over any history, losses of the served file included, the files stay consistent and last-good only rises |
| `AdvisoryMonitor.LaterPublicationsAreAboveLastGood` | scripts/engine-advisory-monitor.py:638-673 | after any history, losses included, a publication is at or above every earlier last-good |
| `AdvisoryMonitor.FailedRunPublishedIff` | scripts/engine-advisory-monitor.py:503-523 | for every run: exit 6 has changed what is served exactly when the sync failed after the rename, exit 7 exactly when the run got as far as publishing (not when its evidence or payload could not be written), a death exactly when the rename had happened |
| `AdvisoryMonitor.FailedRunMayHavePublished` | scripts/engine-advisory-monitor.py:754-765 | any run that would publish has a way to fail with exit 6, and one with exit 7, that leaves its manifest served |
| `AdvisoryMonitor.LaterMayBeBelowIff` | scripts/engine-advisory-monitor.py:36-41 | after a run that put a version in place, some history ends in a publication below it if and only if that run did not record it and a lower version is open above last-good and the compiled floor |
| `AdvisoryMonitor.BelowNeedsRoom` | scripts/engine-advisory-monitor.py:638-676 | whatever happens in between, a later publication is at or above the lowest version open now |
| `AdvisoryMonitor.OpenIsPublished` | scripts/engine-advisory-monitor.py:670-768 | where nothing served counts, some answer makes a run publish the lowest open version |
| `AdvisoryMonitor.MissingOptionsAreDead` | scripts/engine-advisory-monitor.py:712-726 | past the comparison no accepted arguments reach the dry run without a publish root or the missing-option error: a configuration error there is a foreign signing key, and nothing else |
| `AdvisoryMonitor.Monitor.Invoke` | scripts/engine-advisory-monitor.py:811-844 | without the lock exit 4 and nothing changes; with it the files, exit and outcome are those of the run on what the pages put forward |
| `AdvisoryMonitor.Monitor.Perform` | scripts/engine-advisory-monitor.py:628-689 | reading, discovery and decision, step by step, agree with the run function |
| `AdvisoryMonitor.Monitor.Proceed` | scripts/engine-advisory-monitor.py:691-752 | corroboration, dry-run stop, signing and self-verification agree with the run function |
| `AdvisoryMonitor.Monitor.Publish` | scripts/engine-advisory-monitor.py:754-768 | the replace and the record leave exactly the files and exit of the publication function for every way the two writes can go |
| `AdvisoryMonitor.ReadNotes` | scripts/engine-advisory-monitor.py:644-658 | fetch failure, undecodable page, refused page and candidate are told apart as the page determines |
| `RunExits.RefusedIff` | scripts/engine-advisory-monitor.py:655-703 | a run exits 3 exactly when last-good can be read, evidence can be kept, and the page is refused, its version is out of reach, or it is let through and the catalog has no row |
| `RunExits.FetchIff` | scripts/engine-advisory-monitor.py:644-696 | exit 2 exactly when a page could not be fetched: the notes, or the catalog for a version let through |
| `RunExits.SignIff` | scripts/engine-advisory-monitor.py:727-752 | exit 5 exactly when a backed version of a live run is not signed, or the signed envelope does not verify |
| `RunExits.ConfigIff` | scripts/engine-advisory-monitor.py:550-768 | exit 7 exactly when last-good cannot be read, evidence cannot be kept, the key is a foreign one, or the record fails after the publication |
| `RunExits.PublishIff` | scripts/engine-advisory-monitor.py:754-761 | exit 6 exactly when the signed envelope verifies and the served file cannot be written |
| `RunExits.DiedIff` | scripts/engine-advisory-monitor.py:503-523 | a run dies exactly in one of the two writes |
| `RunExits.OkIff` | scripts/engine-advisory-monitor.py:677-768 | exit 0 exactly with one of the seven good outcomes, each exactly when the floors seen, the compiled floor and the kind of run say so |
| `RunExits.OutcomeOfExit` | scripts/engine-advisory-monitor.py:75-89 | every other exit has its own outcome and no other |
| `RunExits.DecideIff` | scripts/engine-advisory-monitor.py:663-689 | the comparison, case by case, in terms of the floors published, the compiled floor and the reach in majors |
| `RunExits.VerifiesIff` | crates/update/src/advisory.rs:114-224 | an advisory verifies exactly when signer, engine, floor, date and every character of the reason are in order, bounds spelt out |
| `PublisherSteps.StepKeepsInv` | scripts/engine-advisory-monitor.py:628-844 | every step of every interleaved process keeps the invariant, and last-good rises |
| `PublisherSteps.RunsKeepInv` | scripts/engine-advisory-monitor.py:628-844 | every state reached by any interleaving of launches, lock attempts, reads, writes, aborts, crashes and losses is consistent; last-good can be read and only rises |
| `PublisherSteps.LaterPublicationsAreAbove` | scripts/engine-advisory-monitor.py:638-673 | every envelope put in place later in any interleaving is at or above last-good now |
| `PublisherSteps.MutualExclusion` | scripts/engine-advisory-monitor.py:811-816 | at most one process is between the lock and its exit |
| `PublisherSteps.LocalIsSound` | scripts/engine-advisory-monitor.py:628-768 | one process step keeps the files consistent and its own view true |
| `PublisherSteps.StepKeepsEntries` | scripts/engine-advisory-monitor.py:722-765 | every envelope ever put in place is authentic, at or above the compiled floor and within the bound of the run that signed it |
| `PublisherSteps.StepKeepsRecordLogged` | scripts/engine-advisory-monitor.py:762-765 | last-good is the one the history began with or names a floor whose envelope was already put in place |
| `PublisherSteps.SilentExitsWroteNothing` | scripts/engine-advisory-monitor.py:644-752 | a process that exits by fetch, refusal, lock or signing, or without publishing, put nothing in place |
| `PublisherSteps.UnchangedMeansServed` | scripts/engine-advisory-monitor.py:684-685 | a live process that answers "unchanged" read the candidate as valid, and it is still served unless the file was lost |
| `PublisherSteps.ServedNeverLowered` | scripts/engine-advisory-monitor.py:628-816 | over every interleaving without a loss in which no reader is a week behind, an authentic served floor never goes down |
| `PublisherSteps.ServedNeverLoweredFromStart` | scripts/engine-advisory-monitor.py:628-816 | the same from any consistent starting disk, an inherited last-good included, after any timely history with losses |
| `PublisherSteps.WithinWeekIsTimely` | scripts/engine-advisory-monitor.py:789-790 | clocks that stay within one week of each other keep every read timely |
| `PublisherSteps.RunIsASchedule` | scripts/engine-advisory-monitor.py:628-768 | the functional run is one schedule of the step system: same files, same exit |
| `RunExits.FoundExits` | scripts/engine-advisory-monitor.py:644-685 | after the notes page a process goes on exactly when its version is let through and otherwise exits as a run does, whatever it has read |
| `RunExits.CatalogExits` | scripts/engine-advisory-monitor.py:691-720 | after the catalog it goes on, exits 2, 3, 7 or ends its dry run, each exactly when |
| `RunExits.SignExits` | scripts/engine-advisory-monitor.py:729-752 | signing goes on exactly with an envelope that verifies under the key, and exits 5 or 7 otherwise |
| `RunExits.WriteExits` | scripts/engine-advisory-monitor.py:754-768 | each of the two writes changes its file exactly when the rename had happened, and ends as it went |
| `RunExits.LockSteps` | scripts/engine-advisory-monitor.py:811-816 | a free lock is taken, a held one makes exit 4, and that of an exited or dead process is freed |
| `RunExits.ExitsWithoutPublication` | scripts/engine-advisory-monitor.py:644-752 | a process that exits 2, 3, 4 or 5, or 0 without a publication, or that has not come to the replace, has put nothing in place |
| `PeImage.ParseImage` | scripts/check-windows-pe.py:45-76 | for every byte string the constructor returns an image or a fault, reading only inside the file |
| `PeMeaning.ParseIff` | scripts/check-windows-pe.py:45-76 | byte by byte: a file is parsed to an image exactly when its header, optional header and section table are laid out as that image |
| `PeMeaning.HeaderFaults` | scripts/check-windows-pe.py:48-65 | a refused file has the fault of the first demand on its headers that it does not meet |
| `PeMeaning.SectionFaults` | scripts/check-windows-pe.py:67-75 | or that of the first section header in the wrong |
| `PeImage.ReadTable` | scripts/check-windows-pe.py:67-76 | the section loop reads all rows or stops at the first fault |
| `PeImage.ParsedIsInFile` | scripts/check-windows-pe.py:64-75 | the data directories and the raw data of every section of a parsed image lie inside the file |
| `PeImage.SpanIsLoadersView` | scripts/check-windows-pe.py:83-93 | a span is granted exactly when the first section holding its start backs all of it from the file, and then reads the bytes the loader maps there |
| `PeMeaning.SpanIff` | scripts/check-windows-pe.py:83-93 | a span is granted at an offset exactly when the first section to hold its start backs all of it from there |
| `PeMeaning.SpanFaults` | scripts/check-windows-pe.py:83-93 | otherwise it is empty, outside every section or past the file-backed part, each exactly when |
| `PeImage.CStringIsLoadersView` | scripts/check-windows-pe.py:95-105 | a string is the mapped bytes up to the first mapped zero, never one the loader zero-fills |
| `PeMeaning.CStringIff` | scripts/check-windows-pe.py:95-105 | a string is read exactly when it stands, free of zeros and with one after it, in the file-backed part of the first section to hold its start |
| `PeImage.Home` | scripts/check-windows-pe.py:87-88 | a section whose virtual range holds the address, none exactly when no section does |
| `PeImage.HomeIsFirst` | scripts/check-windows-pe.py:87-88 | a section that holds the address is the one found when no section before it in the table does |
| `PeImage.Named` | scripts/check-windows-pe.py:107-111 | a section so named, a fault exactly when there is none |
| `PeImage.NamedIsFirst` | scripts/check-windows-pe.py:107-111 | a section so named is the one found when no section before it has the name |
| `PeImage.FindNul` | scripts/check-windows-pe.py:101 | the first zero byte in the range, or none |
| `PeCheck.ReadImports` | scripts/check-windows-pe.py:118-141 | the two directory loops return exactly the names before each terminating descriptor, or the first fault |
| `PeMeaning.ImportsIff` | scripts/check-windows-pe.py:118-141 | the imported names are those of the descriptors before the first terminating one of directory 1, then of directory 13, read from the bytes the layout gives |
| `PeMeaning.NamesIff` | scripts/check-windows-pe.py:32-33 | a name is the Visual C++ runtime, or a Universal CRT forwarder, exactly when it matches letter by letter in whatever case |
| `PeCheck.ReadNames` | scripts/check-windows-pe.py:129-140 | the descriptor loop with its missing-terminator fault |
| `PeCheck.LoadConfigIsLoadersView` | scripts/check-windows-pe.py:160-169 | the guard fields are what the loader maps at offsets 0x78 to 0x90 of the load configuration, and both flag bits are set |
| `PeMeaning.ConfigIff` | scripts/check-windows-pe.py:160-169 | the load configuration is accepted exactly with sizes of at least 148, both flag bits, and its fields as the bytes at 120, 128, 136 and 144 spell them |
| `PeMeaning.ConfigFaults` | scripts/check-windows-pe.py:160-169 | otherwise it has the fault of the first demand it does not meet |
| `PeCheck.EntryIsLoadersView` | scripts/check-windows-pe.py:170-183 | row i of the guard table is what the loader maps at the table address plus i strides |
| `PeCheck.ScanTable` | scripts/check-windows-pe.py:180-191 | one pass finds a table unsorted exactly when some row is not above the one before, else reports rows outside text exactly when there are some |
| `PeCheck.CheckGuardTable` | scripts/check-windows-pe.py:171-191 | the count, address, span, section and scan checks together |
| `PeMeaning.TableIff` | scripts/check-windows-pe.py:170-191 | the guard table is accepted exactly with 100 to 2 to the 24 rows, file-backed, ascending, all in the file-backed part of the first .text section |
| `PeMeaning.TableFaults` | scripts/check-windows-pe.py:170-188 | otherwise the fault is that of the first of these that fails |
| `PeCheck.CountCalls` | scripts/check-windows-pe.py:204-211 | the byte-by-byte loop counts exactly the set of all matching offsets |
| `PeMeaning.CallsIff` | scripts/check-windows-pe.py:204-211 | the counted offsets are those with FF 15 or FF 25 and a signed displacement to the dispatch pointer |
| `PeCheck.CountIsFloorOfAnyDisassembly` | scripts/check-windows-pe.py:197-211 | no choice of instruction starts finds more guarded calls than the count |
| `PeCheck.Check` | scripts/check-windows-pe.py:144-217 | for every byte string the check returns the verdict: a report or a fault, nothing else |
| `PeMeaning.VerdictIff` | scripts/check-windows-pe.py:144-217 | a file gets a report exactly when it is laid out as an image that meets every demand, and the report counts that image's names, forwarders, rows and guarded calls |
| `PeMeaning.RuntimeIsForbidden` | scripts/check-windows-pe.py:148-151 | an image that can be read and imports a runtime name, in whatever case, is refused for it |
| `PeCheck.CheckGuard` | scripts/check-windows-pe.py:160-217 | the load configuration, table, dispatch pointer and call count in order |
| `PeCheck.AcceptedImage` | scripts/check-windows-pe.py:170-214 | an accepted guard table is file-backed, strictly increasing, all in file-backed text, so 100 <= rows <= bytes of text; the reported calls are all matching offsets and reach the minimum |
| `PeCheck.AcceptedLinkage` | scripts/check-windows-pe.py:146-158 | an accepted image imports no Visual C++ runtime, imports a Universal CRT forwarder and has all four hardening bits |
| `PeNonInterference.SameVerdict` | scripts/check-windows-pe.py:44-217 | two files of equal length that agree up to the end of the section table and on every file-backed section range get the same verdict |
| `PeNonInterference.UnmappedByteIsInert` | scripts/check-windows-pe.py:24-26 | changing a byte outside the headers and every file-backed range never changes the verdict |
| `PeNonInterference.SameParse` | scripts/check-windows-pe.py:45-76 | the parsed headers depend only on the bytes up to the end of the section table |
| `PeNonInterference.HeaderEndIsTableEnd` | scripts/check-windows-pe.py:51-68 | for a file whose headers are in order that is the end of the section table and nothing more |
| `CommentBlanker.BlankComments` | scripts/innerhtml-code-gate.js:26-95 | the five-mode scan agrees on every text with the token lexer of comments and quotes |
| `CommentMeaning.BlankedIsWritten` | scripts/innerhtml-code-gate.js:26-95 | however a source is cut into comments, literals in one of the three quotes with their escapes, and other characters, blanking writes blanks and newlines for each comment and every other piece as it is |
| `CommentMeaning.EverySourceIsPieces` | scripts/innerhtml-code-gate.js:36-92 | and every source is such a row of pieces, unclosed ones at its end included |
| `CommentBlanker.BlankingIsExact` | scripts/innerhtml-code-gate.js:36-92 | position by position: a character in a comment becomes a space or stays a newline, any other is kept |
| `CommentBlanker.BlankingKeepsPositions` | scripts/innerhtml-code-gate.js:26-95 | same length, and newlines in exactly the same places |
| `CommentBlanker.BlankingIsIdempotent` | scripts/innerhtml-code-gate.js:26-95 | blanking a blanked text changes nothing |
| `CommentBlanker.SameLineCount` | scripts/innerhtml-code-gate.js:101-105 | source and blanked text split into the same number of lines |
| `CommentMeaning.LinesMean` | scripts/innerhtml-code-gate.js:101-102 | a text splits at its first newline, a carriage return directly before it aside, and what follows splits likewise |
| `Scheduler.Sandbox.Settle` | scripts/divergence-worker-gate.js:149-174 | the twenty-round loop leaves exactly the realm the round functions describe, for any script |
| `Scheduler.Sandbox.OneRound` | scripts/divergence-worker-gate.js:158-172 | one round: state, drained tasks, intervals, listeners, microtasks, in that order |
| `RoundEvents.RoundDoes` | scripts/divergence-worker-gate.js:158-172 | all that a round does of its own accord, in order: the state set, every waiting task run, every interval ticked, every due listener called, each once, and one drain |
| `RoundEvents.SettledDoes` | scripts/divergence-worker-gate.js:149-174 | from loading to the end: a drain, then twenty such rounds, and nothing else |
| `RoundEvents.IntervalTicks` | scripts/divergence-worker-gate.js:160-161 | an interval that round m is the first to find ticks exactly 20 - m times, one that no round finds never |
| `RoundEvents.LoadedIntervalTicks` | scripts/divergence-worker-gate.js:117 | an interval set while the page loads ticks twenty times |
| `RoundEvents.TaskIntervalTicks` | scripts/divergence-worker-gate.js:160-161 | one set by a task of a round is among those the round ticks |
| `RoundEvents.LoadedTimerRuns` | scripts/divergence-worker-gate.js:111-116 | a timer set while the page loads runs once |
| `RoundEvents.TickAsks` | scripts/divergence-worker-gate.js:161 | what a ticking interval's callback asks for is queued |
| `RoundEvents.FireAsks` | scripts/divergence-worker-gate.js:162-170 | and what a called listener's asks for |
| `Scheduler.Sandbox.FireAll` | scripts/divergence-worker-gate.js:161-170 | the state is read once; the listeners registered by then are each called once, or once per state, early kinds only in round 0 |
| `Scheduler.Sandbox.Perform` | scripts/divergence-worker-gate.js:106-138 | scheduling calls record their work in order, an argument that cannot be called is passed over, a write to document.readyState takes effect |
| `Scheduler.EveryTaskRunsOnceToDepth19` | scripts/divergence-worker-gate.js:158-172 | for any script, every task queued at depth at most 19 runs exactly once and a deeper one is left waiting |
| `Scheduler.SettledConserves` | scripts/divergence-worker-gate.js:158-172 | every task ever queued has run once or is waiting, and none is lost or doubled |
| `Scheduler.ChainDeepens` | scripts/divergence-worker-gate.js:160 | a task queued while a task of depth d runs has depth d + 1 |
| `Scheduler.ListenersFire` | scripts/divergence-worker-gate.js:158-171 | for any script, one that writes document.readyState included: each listener is called at most once, readystatechange at most once per state, calls never go back a round, and every listener of every round's snapshot is called, a readystatechange one in the state that round found |
| `ListenerCalls.CalledInRoundIff` | scripts/divergence-worker-gate.js:158-171 | for every script: round k calls a listener if and only if it is the first round whose snapshot holds it, not passed over in round 0, under its key, the state found for readystatechange and one key for any other |
| `ListenerCalls.CallCountIff` | scripts/divergence-worker-gate.js:162-170 | a readystatechange listener is called once in a state exactly if some snapshot with it found that state and never otherwise, any other listener once exactly if some round reaches it |
| `ListenerCalls.LoadedListenerIsCalled` | scripts/divergence-worker-gate.js:147-170 | a DOMContentLoaded or readystatechange listener registered at load is called in round 0, any other first in round 1 |
| `ListenerCalls.CallsAreInSnapshotState` | scripts/divergence-worker-gate.js:161-169 | every call of round k is of a listener in its snapshot and in the state it found, whatever the page writes and when |
| `ListenerCalls.LifecycleBrokenIff` | scripts/divergence-worker-gate.js:159-169 | exactly when the lifecycle is not followed: a call is in another state than its round's own iff a round that calls someone found another; an interactive call follows a complete one iff a calling round found complete before another found interactive |
| `ListenerCalls.UntouchedFollowsLifecycle` | scripts/divergence-worker-gate.js:159-161 | a page that never writes document.readyState meets that condition: round 0 finds it interactive, all later rounds complete, and calls follow in that order |
| `ListenerCalls.UntouchedListenersSeeEachState` | scripts/divergence-worker-gate.js:159-169 | then a readystatechange listener is called once when interactive exactly if it is in the first snapshot, once when complete exactly if in a later one, and never in another state |
| `ListenerCalls.PageMayReverseStates` | scripts/divergence-worker-gate.js:159-169 | a page that writes "complete" from its first timer and "interactive" from its second has one listener called in the complete state first and in the interactive state after |
| `DomTree.Element.Detach` | scripts/domstub.js:37-42 | takes the node out of every list that holds it, keeping the others as they were, and the tree sound |
| `DomTree.Element.AppendChild` | scripts/domstub.js:182-188 | the node ends up last and only there, with this element as parent, all other lists as before without it |
| `DomTree.Element.InsertBefore` | scripts/domstub.js:189-197 | the node ends up at the reference, or last when the reference is not a child once the node is detached |
| `DomTree.Element.RemoveChild` | scripts/domstub.js:198-201 | the node is in no list afterwards and the tree is sound |
| `DomTree.Element.SetTextContent` | scripts/domstub.js:265-273 | every string is recorded and only the empty one empties the list; the tree stays sound |
| `DomTree.Element.ReplaceChildren` | scripts/domstub.js:202-204 | the tree stays sound exactly when the new list has no repeats and its members already name this element as parent |
| `DomTree.OnePlace` | scripts/domstub.js:35-42 | a node stands in at most one child list, at most once, and that list's owner is its parent |
| `DomTree.InsertedBeforeDistinctReference` | scripts/domstub.js:189-197 | insertion is directly before a distinct reference child, and at the end when the reference is the node itself |
| `DomTree.MoveBeforeKeepsOrder` | scripts/domstub.js:189-197 | a move before a reference keeps the relative order of all other children |
| `DomTree.MoveLastKeepsOrder` | scripts/domstub.js:182-188 | a move to the end keeps the relative order of all other children |
| `DomTree.CycleIffAncestor` | scripts/domstub.js:182-197 | a move makes a cycle exactly when the node is an inclusive ancestor of its new parent, which the stub does not refuse |
| `DomTree.PerformAll` | scripts/domstub.js:182-273 | every sequence of moves, removals and text writes keeps the tree sound |
| `LanguageRegistry.ChooseVersion` | scripts/gen-language-registry.py:152-186 | the shippable version with the greatest key, earliest among ties; none only when nothing is shippable, and alpha-only exactly when every version is an alpha |
| `RegistryMeaning.ChosenIff` | scripts/gen-language-registry.py:152-186 | the version that ships is stable and complete, and every other such one has a smaller key, or the same key and a later first record |
| `RegistryMeaning.ShippableIff` | scripts/gen-language-registry.py:169-182 | complete: the version's file types are exactly those of one of the two layouts |
| `RegistryMeaning.AlphaIff` | scripts/gen-language-registry.py:121-124 | an alpha ends in an `a` and digits or none, a last newline aside |
| `RegistryMeaning.SignedIsRead` | scripts/gen-language-registry.py:135-138 | a component with blanks around it and a sign is read as that number |
| `RegistryMeaning.OddComponentIsZero` | scripts/gen-language-registry.py:137-138 | one with any other character makes the key the single zero |
| `LanguageRegistry.OrderIrrelevantIff` | scripts/gen-language-registry.py:127-138 | for any key: every ordering of the records gives the same choice exactly when one shippable version alone has the greatest key |
| `LanguageRegistry.SortDescending` | scripts/gen-language-registry.py:173 | the versions ranked by descending key with ties in order of appearance, none lost |
| `LanguageRegistry.GroupByVersion` | scripts/gen-language-registry.py:169-171 | the file types of each version, versions in order of first appearance |
| `LanguageRegistry.UnderIsStrictOrder` | scripts/gen-language-registry.py:135-136 | the order on version keys is a strict total order |
| `LanguageRegistry.TrailingZeroRanksHigher` | scripts/gen-language-registry.py:127-138 | a version made of numerals ranks below itself with ".0" added |
| `LanguageRegistry.NumericVersionsTieIff` | scripts/gen-language-registry.py:127-138 | versions made of numerals tie exactly when they have as many components and the same numbers |
| `CatalogRouter.TokenShapeIff` | scripts/gen-language-registry.py:89-118 | the shape is exactly two or three lowercase alphanumeric subtags of 2 to 12 characters joined by hyphens, at most 20 in all |
| `RegistryMeaning.TokenIff` | scripts/gen-language-registry.py:89-118 | spelt out: two or three subtags of 2 to 12 small letters and digits, twenty characters in all |
| `CatalogRouter.PairTokenInjective` | scripts/gen-language-registry.py:141-149 | for English-anchored pairs over unambiguous codes no token names two pairs |
| `CatalogRouter.SameTokenIff` | scripts/gen-language-registry.py:141-149 | for all codes: two pairs share a token exactly when their lowercased subtags laid end to end are the same |
| `CatalogRouter.EnglishPairsCollideIff` | scripts/gen-language-registry.py:141-149 | for English pairs whose codes hide no "en" subtag: two pairs share a token exactly when they differ in case alone |
| `CatalogRouter.RouteCatalog` | scripts/gen-language-registry.py:252-298 | keeps exactly the rows that are shaped, unshadowed and self-named, and refuses exactly when one of them is unacceptable or repeats a token |
| `RegistryMeaning.KeptMeans` | scripts/gen-language-registry.py:255-268 | the rows kept are just those not passed over, in their order |
| `RegistryMeaning.AcceptableIff` | scripts/gen-language-registry.py:274-295 | a row may be emitted exactly with one of the two sources, tier 1, emittable names and version, and a positive size |
| `CatalogRouter.KeptCollidesIff` | scripts/gen-language-registry.py:261-268 | a kept row has a chosen pair's token exactly when the pair is a case variant of the row, which is when the row spells in lowercase a pair with capitals |
| `CatalogRouter.RoutedTokensUniqueIff` | scripts/gen-language-registry.py:206-298 | over the chosen pairs and the kept rows one token names one pair if and only if no kept row is the lowercase spelling of a chosen pair with capitals |
| `CatalogRouter.ShadowsNeedsScriptTag` | scripts/gen-language-registry.py:22-47 | only zh-Hans and zh-Hant among the named codes can be spelt over in that way |
| `CatalogRouter.ScriptTaggedPairIsShadowed` | scripts/gen-language-registry.py:261-268 | beside the published pair (zh-Hans, en) the router keeps a row (zh-hans, en) and both have the token zh-hans-en |
| `CatalogRouter.RustSafeIsInert` | scripts/gen-language-registry.py:76-86 | a name or version let through holds no quote, no backslash and no control character but one last newline |
| `CatalogRouter.LastNewlineIsLetThrough` | scripts/gen-language-registry.py:76-81 | a name with a last newline is let through although the character class excludes it |
| `BookmarkStore.Store.Handle` | scripts/bookmarks-manager-gate.js:135-246 | each command leaves the store and answers as the step function says |
| `StoreMeaning.AddMeans` | scripts/bookmarks-manager-gate.js:162-176 | an add puts one more bookmark last, unpinned, unordered, in no folder, under the next id, with a scheme to its address |
| `StoreMeaning.PinMeans` | scripts/bookmarks-manager-gate.js:177-184 | pinning keeps the order a bookmark has, unpinning takes it, and nothing else changes |
| `StoreMeaning.ReorderIff` | scripts/bookmarks-manager-gate.js:185-204 | a list is accepted exactly when it names each pinned bookmark once and nothing else |
| `StoreMeaning.FileMeans` | scripts/bookmarks-manager-gate.js:205-211 | filing adds the folder's name last where it is not there |
| `StoreMeaning.UnfileMeans` | scripts/bookmarks-manager-gate.js:212-218 | unfiling takes it off and keeps the other names in order |
| `StoreMeaning.CreateMeans` | scripts/bookmarks-manager-gate.js:219-224 | a nameless folder is refused, a new one listed last, a listed one left |
| `StoreMeaning.DeleteMeans` | scripts/bookmarks-manager-gate.js:239-242 | deleting takes every bookmark with the id out and keeps the rest in order |
| `StoreMeaning.DeleteFolderMeans` | scripts/bookmarks-manager-gate.js:232-238 | deleting a folder takes its name out of the list and off every bookmark, order kept |
| `BookmarkStore.Store.AssignOrders` | scripts/bookmarks-manager-gate.js:199-201 | the loop gives each id in turn its place as order |
| `BookmarkStore.StepSoundIff` | scripts/bookmarks-manager-gate.js:162-242 | every command keeps ids distinct, ordered bookmarks pinned and orders apart, an add exactly when its id is not in use |
| `BookmarkStore.RunKeepsSound` | scripts/bookmarks-manager-gate.js:135-246 | the same over every run of commands in which no add meets an id in use |
| `BookmarkStore.ReorderAssignsAll` | scripts/bookmarks-manager-gate.js:187-204 | an accepted reorder gives the pinned bookmarks exactly the orders 0 to n - 1 as asked and leaves the others without one |
| `BookmarkStore.AcceptedIsPermutation` | scripts/bookmarks-manager-gate.js:189-198 | an accepted list names every pinned bookmark exactly once |
| `BookmarkStore.RefusedChangesNothing` | scripts/bookmarks-manager-gate.js:177-198 | a refused command changes nothing |
| `BookmarkStore.AddDeleteAddRepeatsAnId` | scripts/bookmarks-manager-gate.js:166 | add, delete an older bookmark, add again always repeats an id |
| `BookmarkStore.UnfileUndoesFile` | scripts/bookmarks-manager-gate.js:205-218 | unfiling undoes filing under a folder the bookmark was not in |
| `BookmarkStore.DeletedFolderIsGone` | scripts/bookmarks-manager-gate.js:232-238 | a deleted folder, by its normalised name, is out of the list and off every bookmark, nothing else changed |
| `BookmarkStore.NormIsStableIff` | scripts/bookmarks-manager-gate.js:54-57 | for any lowercasing: a folder name the store has normalised is left as it is when it comes back if and only if it is at most forty characters long |
| `BookmarkStore.DottedNameIsCut` | scripts/bookmarks-manager-gate.js:54-57 | twenty-one dotted capital I's become forty-two characters, which are cut when they come back |
| `PseudoLocale.TransformValue` | scripts/gen-pseudo-locale.py:43-68 | the character loop agrees with the positional description of the transform |
| `PlaceableMeaning.TransformMeans` | scripts/gen-pseudo-locale.py:43-68 | a value made of letters and balanced placeables is written letter by letter from the two accented alphabets, placeables copied, and padded by whole markers for the letters after the last placeable |
| `PlaceableMeaning.UnclosedIsRefused` | scripts/gen-pseudo-locale.py:64-65 | a value with an opening brace that is never closed is refused |
| `PlaceableMeaning.EveryValueIsBits` | scripts/gen-pseudo-locale.py:47-63 | and every value is the one or the other |
| `PseudoLocale.PlaceablesAreCopied` | scripts/gen-pseudo-locale.py:43-68 | refused exactly when a placeable never closes; else placeables are copied character for character and no ASCII letter is left outside them |
| `PseudoLocale.TransformInjective` | scripts/gen-pseudo-locale.py:43-68 | two ASCII values with the same transform are the same value |
| `PseudoLocale.PaddingGrowsByTwoFifths` | scripts/gen-pseudo-locale.py:36-40 | a trailing literal that is not blank grows the value by whole markers, at least two fifths of its own length; nothing else is padded |
| `PseudoLocale.AccentInjective` | scripts/gen-pseudo-locale.py:23-33 | the accent table is injective on ASCII |
| `LinuxFeeds.Gate.CheckRelease` | scripts/check-linux-feeds.py:157-219 | the collected failures are exactly those of the release, and the exit is zero exactly when there are none |
| `FeedMeaning.ReleaseReports` | scripts/check-linux-feeds.py:157-211 | each failure is reported exactly when its cause is there, over the whole release |
| `LinuxFeeds.Gate.CheckFeed` | scripts/check-linux-feeds.py:108-154 | the failures of one feed in order, and its payload |
| `FeedMeaning.FeedReports` | scripts/check-linux-feeds.py:108-154 | each failure of one feed is reported exactly when its cause is there |
| `LinuxFeeds.FeedOkIff` | scripts/check-linux-feeds.py:108-154 | a feed adds no failure exactly when its manifest describes this binary, of this variant, with the floors that variant demands |
| `LinuxFeeds.AcceptedIff` | scripts/check-linux-feeds.py:169-219 | a release is accepted exactly when both new-feed manifests describe the strict build with one floor and the old feed is either frozen as recorded or re-signed for the bridge |
| `LinuxFeeds.AcceptedBridge` | scripts/check-linux-feeds.py:192-211 | an accepted bridge release has version 1.0.6 and the strict build's floor on all four manifests, and no file offered on both feeds |
| `LinuxFeeds.ExchangedBuildsAreRefused` | scripts/check-linux-feeds.py:18-21 | no release that puts an accepted bridge build on the new feed or its strict build on the old one is accepted |
| `LinuxFeeds.LaterReleaseIsFrozen` | scripts/check-linux-feeds.py:176-200 | a release whose new feed is not 1.0.6 is accepted only with the old feed frozen |
| `LinuxFeeds.OnlyABridgeChangesOldFeed` | scripts/check-linux-feeds.py:176-200 | an accepted release given the recorded hashes leaves both old-feed manifests as they were, or is itself a 1.0.6 bridge release given none |
| `LinuxFeeds.OldFeedIsLastBridges` | scripts/check-linux-feeds.py:176-200 | over any sequence of accepted releases both old-feed manifests are byte for byte those of the last bridge release |
| `LinuxFeeds.OldFeedStaysFrozen` | scripts/check-linux-feeds.py:179-186 | with a hash given each time, or no later release 1.0.6, they stay as the first release left them |
| `LinuxFeeds.BridgeMayBeRepeated` | scripts/check-linux-feeds.py:192-200 | an accepted bridge release is accepted again with other old-feed manifests of the same payloads |

## Left out

- HTTP fetching, the signer's subprocess and command line, what evidence and status files hold, file modes: input and output around the modelled decisions.
- The regular expressions, HTML entity decoding, `parse_heading_date` and `parse_catalog_date`: their results are inputs, so what a paragraph, heading or row looks like as text is not modelled beyond CVE mentions, link targets and version texts.
- A status file that cannot be written at the end of a run: it changes the exit, not the two files.
- Runs with different state directories, baselines or verifying keys over one publish root: the proofs fix all three.
- AdvisoryMonitor.Monitor.Invoke: models the lock as a flag of one object; contention between processes is in `PublisherSteps`.
- The client's own advisory register in the Rust crates, and the crates in general.
- The wording of error messages: a fault or failure is its kind.
- Digits outside ASCII in a version: `int()` and `\d` read them, the model of version keys and alphas does not; nor does it have the interpreter's limit on the length of a number.
- CatalogRouter.RouteCatalog: does not model the refusal of mixed tiers, which cannot arise while every row is tier 1.
- BookmarkStore.Store.Handle: `on` is a boolean, a reply is its kind without its data, and digests, snapshots, pictures and the read-only commands are left out.
- Scheduler.Sandbox.Settle: callbacks schedule, listen and write `document.readyState`; they do not reach into the sandbox's own lists or replace its functions. Cancelling does nothing in the source either.
- DomTree.Element.AppendChild: observers are not called; the tree is already sound at the point where the source calls them.
- DomTree.Element.InsertBefore: observers are not called, as for appending.
- LinuxFeeds.Gate.CheckFeed: a payload that is not a JSON object, on which the source stops with an exception, counts as unreadable.
- LinuxFeeds.Gate.CheckRelease: a payload that is not a JSON object, on which the source stops with an exception, counts as unreadable.
- The remaining DOM stub (attributes, selectors, events), the remaining gates and the smaller checkers: example checks or short scans that would only add easy members.
