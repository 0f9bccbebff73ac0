# DBackup: what its recovery and scheduling code guarantees

A Dafny model of the parts of DBackup whose behaviour is hardest to see from one function:
the stand-alone archive recovery script and the writer it has to agree with, the pruning of excluded
directories, the concurrency primitives, and the life of one backup run. Loops, mutated objects and
in-place buffers are methods and classes; each is tied to a specification function, and the results
below are about those functions, over every input, every schedule or every history.

`dafny verify dfyconfig.toml` checks everything.

| file | subject |
|---|---|
| `Bytes.dfy` | bytes, options and results, positional numbers |
| `TarNumeric.dfy`, `PaxNames.dfy` | size fields, and the two ways names are read from pax headers |
| `TarWalk.dfy`, `TarWriter.dfy` | the member walk, and the writer it undoes |
| `EntryKeys.dfy`, `Archive.dfy`, `Chain.dfy` | addressing entries, one archive, and incremental chains of them |
| `Unseal.dfy` | streaming decryption against opening an entry whole |
| `Glob.dfy`, `Paths.dfy`, `Disk.dfy` | the glob compiler, path resolution, a disk with symbolic links |
| `Extract.dfy`, `ExtractSafety.dfy`, `ExtractOutcome.dfy` | the extraction run: where it writes, and what it leaves on disk |
| `ExtractRoom.dfy`, `ExtractRows.dfy` | when it gets through; which lines it takes, and where each lands |
| `Restore.dfy` | the whole way from a sequence of snapshots to files on disk |
| `LineReader.dfy` | the prompt's line reader |
| `Prune.dfy`, `ExcludeSummary.dfy` | skipping directories; accounting for what was excluded |
| `Gate.dfy`, `WorkerPool.dfy`, `ConfigSync.dfy` | step relations at the granularity of one await |
| `Claim.dfy`, `Lifecycle.dfy`, `LogFlusher.dfy` | claiming a run, running it, and writing its progress |
| `Versions.dfy` | comparing version strings |

## How it is modelled

- Ciphers, hashes and compressors are function parameters with only the laws a result needs: decoding
  undoes encoding, decryption emits output from the front without waiting for later input.
- A file is a sequence of bytes; the disk is a map of regular files, a set of directories and a map of
  symbolic links, and a path is a list of names. Names inside archives stay bytes.
- Concurrency is a state machine whose steps are the uninterrupted stretches between awaits. A run is
  any sequence of enabled steps, so a statement about all runs is one about all interleavings.
- The repository walks archives in two places: the recovery script and the writer itself, which takes the
  offsets for its index from there. The two differ only in how they read a path from a pax header, so the
  walk is one function with that as a parameter, `PaxNames.PaxRule`.
- `NoProgress` in `TarWalk.Outcome` is the one outcome the code does not have: where a header would
  leave the walk where it is or send it back, the code reads headers it has read before, and the model
  stops and says so. `Run` is the same loop without that check.
- JSON is taken as parsed records: reading back a manifest or an index that was written is a law of
  `Archive.Codec`, and everything else read for one is whatever that parameter makes of it. Time is a parameter.

## Where the code and its documentation part ways

Each is a lemma here, with the exact condition under which the documented behaviour does hold.

- A path in a pax header survives the recovery script only without line ends of any kind: a newline cuts
  it short, and a carriage return, U+2028 or U+2029 loses it (`PaxNames.PaxPathExact`,
  `TarWriter.PatternSurvivesExactly`). After a carriage return the search goes on, so part of a name can be
  read as the whole of it (`PaxNames.CarriageReturnRenames`). A file whose pax name ends in a carriage return
  and `1 path=manifest.json` is then taken for the manifest of its archive, although it comes after it
  (`Archive.OpenFindsItsOwn`, `Archive.ManifestHijacked`); unless that file is a manifest itself, neither
  the archive nor any snapshot that depends on it can be opened (`Archive.OpensExactly`,
  `Chain.OpensAsWrittenExactly`).
- The writer's own walk reads pax records by their length in bytes, but counts characters: a path with
  characters of several bytes comes back only from the last record (`PaxNames.LengthReadExact`). The writer
  puts file paths there, so the index is right for every name (`Archive.PlannedNameRead`).
- A leading 0xff byte decodes to a negative size. From -512 down the walk stops advancing, and it never
  ends if and only if it looks at some position twice (`TarWalk.ProgressExact`, `TarWalk.NeverEndsExactly`).
- The writer looks offsets up by member name. Two stored files whose members share a name get the same
  offset; a compressed `foo` beside an uncompressed `foo.gz` is such a pair
  (`Archive.OffsetExact`, `Archive.SharedNameSharesOffset`, `Archive.RotatedLogMisread`).
- An extracted file does not stay if a later file streams to a target whose partial file has its name, as
  `x` after `x.partial` does, if a later row writes the same path, as the databases `a/b` and `a_b` do, or
  if a link row names its path (`ExtractOutcome.ExtractedFileExact`, `ExtractOutcome.PartialNameIsSwept`,
  `ExtractOutcome.LaterDumpWins`, `ExtractOutcome.WholeRunLeaves`).
- An empty file that a clear archive stores without compressing it ends every extraction that selects it:
  streaming an entry of no bytes throws (`Restore.EmptyFileEndsRun`). So does a directory where a file or a
  partial file has to be, as after `x.partial/y` there is for `x`
  (`ExtractRoom.RowThrowsExactly`, `ExtractRoom.DirectoryTakesPartialName`).
- A row that resolves to the output directory itself, as the path `..` under any source does, passes the
  check for regular files (`ExtractOutcome.DotDotNamesTheRoot`). Once the run opens
  a file for it, and only then, something lies outside: beside the directory or in its place
  (`ExtractSafety.ContainedExactly`, `ExtractSafety.RootRowOutcome`).
- A partial file does stay behind in one case: everything verified, and a directory at the target
  (`ExtractSafety.NoPartialRemains`).
- Pruning by three probes is right for patterns with at most three segments after the last `**`, no
  brace alternatives of different depths, no negation and no segment that singles out the probe's
  name; each of these conditions is needed (`Prune.TailBoundSharp`, `Prune.BracesPassProbes`,
  `Prune.OnePartDecides`).
- The gate can let in more calls than its limit, if a fresh call looks between the moment a waiter is
  woken and the moment it goes on (`Gate.LimitExact`, `Gate.OneSlotTwoInside`).
- After one item rejects, other workers go on starting items, unless there is one worker or every item
  started at once (`WorkerPool.StopsExactly`).
- A progress request that arrives during the repeat write is dropped
  (`LogFlusher.CoveredExact`, `LogFlusher.SlowRepeatLosesState`). A flush that finds a write under way
  returns before it is over, and the closing log line starts one whenever the last write is an interval
  ago; then progress lands on the final row although the shutdown order is right
  (`LogFlusher.ShutdownSafeExactly`, `Lifecycle.FailingRunOverwritten`). So it does after any log line of
  clean-up or notifications, which most runs have: the final row stands to the end in exactly the runs
  without either (`Lifecycle.FinalRowOfRun`).
- A configuration fetch that fails before it first waits leaves its marker set for good
  (`ConfigSync.RequestKeepsInv`, `ConfigSync.EarlyFailureSticks`).
- A missing version equals every version, so exactly through a missing one comparing is not transitive
  (`Versions.TransitiveThroughExactly`).
- After the input has ended, a second question is never answered, and an unterminated last line is
  dropped (`LineReader.AnswersAreLines`).

## Model

| member | source | states |
|---|---|---|
| TarNumeric.ReadNumeric | scripts/dbackup-recover.js:353-370 | the loop and its two branches compute the value of the whole field, or refuse it |
| TarNumeric.OctalRoundTrip | scripts/dbackup-recover.js:367-369 | every size below 8^11 in eleven octal digits reads back, ended by a space or a NUL |
| TarNumeric.OctalDigitsExact | scripts/dbackup-recover.js:367-369 | an octal field with one more digit reads as eight times the field without it, and that digit |
| TarNumeric.Base256Exact | scripts/dbackup-recover.js:356-365 | a base-256 field of any length denotes its two's complement value and is refused exactly beyond the safe integers |
| TarNumeric.SizeRoundTrip | scripts/dbackup-recover.js:345-370 | whichever encoding a size calls for, it reads back up to 2^53-1 and is refused beyond |
| TarNumeric.NegativeSizeField | scripts/dbackup-recover.js:357 | a field with a leading 0xff that decodes to -512 |
| TarNumeric.MinusOneStays | scripts/dbackup-recover.js:357-360 | a field of nothing but 0xff reads as -1 at any width |
| TarWalk.WalkMembers | scripts/dbackup-recover.js:378-417 | the loop with its position, pending name and member list yields the outcome of the recursive walk, up to the first header that does not advance |
| TarWalk.HeaderKindExact | scripts/dbackup-recover.js:388-413 | by flag: x and X announce a path in their payload, L announces its payload as the name, any other is a member; and what a negative size does to each |
| TarWalk.ProgressExact | scripts/dbackup-recover.js:388-413 | a turn fails to advance exactly where an ordinary header has a size of -512 or less; otherwise it advances by whole blocks |
| TarWalk.Terminates | scripts/dbackup-recover.js:384-414 | without such a header the unchecked loop ends within one turn per remaining block, as the walk says |
| TarWalk.SelfReferenceNeverEnds | scripts/dbackup-recover.js:388-413 | a size between -1023 and -512 keeps the unchecked loop where it is, listing one more member every turn, for ever |
| TarWalk.NeverEndsExactly | scripts/dbackup-recover.js:384-414 | for any file, the unchecked loop never ends if and only if it looks at some position twice, which then shows within as many turns as the file has bytes |
| TarWalk.NeverEndingIsReported | scripts/dbackup-recover.js:384-414 | and then the checked walk has met a header that does not advance |
| TarWalk.WalkLaysOut | scripts/dbackup-recover.js:384-416 | the members of any accepted file are laid out block by block from the starting position on |
| TarWalk.MembersDisjoint | scripts/dbackup-recover.js:390-413 | members found are aligned to 512 bytes, ascending, and disjoint with headers and padding included |
| TarWalk.PayloadsIgnored | scripts/dbackup-recover.js:384-416 | rewriting any bytes inside ordinary payloads leaves the result of the walk the same |
| PaxNames.PaxPathExact | scripts/dbackup-recover.js:398-399 | a pax path record, first or after other records, reads back if and only if the path holds no line feed, carriage return, U+2028 or U+2029 |
| PaxNames.CarriageReturnRenames | scripts/dbackup-recover.js:398-399 | a path record spelled out after a carriage return inside a name is read instead of the name |
| PaxNames.LengthReadExact | src/lib/archive/tar-blocks.ts:77-92 | read by record lengths, a path in the first record comes back whatever it holds if no record follows, and otherwise if and only if it has no character of several bytes |
| PaxNames.RecordSkipped | src/lib/archive/tar-blocks.ts:77-92 | other records before it make no difference if every byte of them is a character of its own |
| PaxNames.LengthReads | src/lib/archive/tar-blocks.ts:77-92 | what the reader returns of a path in the first record: the path and as much of the next record as the miscount reaches |
| TarWriter.WalkUndoesWriter | scripts/dbackup-recover.js:378-417 | for every list of members, each named short, divided, by pax record or by GNU long name, either walk returns the names their headers give them, the sizes and the payload offsets in order |
| TarWriter.NamesComeBackExactly | scripts/dbackup-recover.js:378-417 | and these are the names the writer meant if and only if every single one survives being read |
| TarWriter.PatternSurvivesExactly | scripts/dbackup-recover.js:398-407 | in the recovery script a name survives unless it is in a pax header and holds a line end, and only then |
| TarWriter.LengthSurvivesExactly | src/lib/archive/tar-blocks.ts:124-145 | in the writer's walk a name survives unless it is in the first record of a pax header, has characters of several bytes and another record after it |
| TarWriter.LocationsPointAtPayloads | scripts/dbackup-recover.js:405-413 | each location has the name read for its own member, so no long name reaches another, and cuts out exactly its payload |
| TarWriter.LocationsAscend | scripts/dbackup-recover.js:412-413 | offsets strictly ascend |
| EntryKeys.EntryKeyExact | scripts/dbackup-recover.js:534-536 | two entry keys are equal if and only if archive and ordinal are, an absent archive counting as an empty name |
| EntryKeys.SplitKeyInverts | src/lib/archive/chain.ts:79-83 | splitting a key at its last '#' gives back archive and ordinal, whatever the archive's name holds |
| EntryKeys.KeysSpelled | scripts/dbackup-recover.js:534-536 | an entry key is the archive, a hash sign and the ordinal in decimal without leading zeros; a file key is source, NUL and path |
| EntryKeys.FileKeyExact | src/lib/archive/chain.ts:24-28 | file keys are injective for sources without a NUL |
| EntryKeys.OpaqueNameValue | src/lib/archive/format.ts:79-81 | an opaque name is d/ and the ordinal in at least six digits |
| EntryKeys.OpaqueNamesDistinct | src/lib/archive/format.ts:79-81 | encrypted archives never repeat a member name |
| Archive.ReadAt | scripts/dbackup-recover.js:422-432 | the chunked read returns exactly the requested range, zero-filled past the end of the file |
| Archive.IndexListsPlan | src/lib/archive/writer.ts:370-375 | every dump of a plan has an index line with its name and ordinal, in plan order and no line besides; every link has one, after the files of the plan and before the carried lines |
| Archive.OffsetExact | src/lib/archive/writer.ts:499-512 | looking an offset up by name is right for a member if and only if no later member is read by the same name |
| Archive.PlannedNameRead | src/lib/archive/tar-blocks.ts:106-158 | the writer's walk reads every planned member by its planned name, whatever that holds |
| Archive.RotatedLogCollides | src/lib/archive/writer.ts:111-200 | a gzipped file and a plain one named after it with .gz share a member name in a clear archive, and never in an encrypted one |
| Archive.SharedNameSharesOffset | src/lib/archive/writer.ts:499-523 | of two plan entries that share a member name, the index points the earlier one at the later one's bytes |
| Archive.RotatedLogMisread | src/lib/archive/writer.ts:499-523 | the archive of such two files, built: the entry of the first starts at the bytes of the second |
| Archive.MemberFoundExact | scripts/dbackup-recover.js:474-477 | a member is found under the name it is read by if and only if no later member is read by it |
| Archive.OpenFindsItsOwn | scripts/dbackup-recover.js:467-515 | opening any finished archive finds its own index, and its own manifest if and only if no later member is read as manifest.json, pax names with line ends included |
| Archive.SurvivingNamesAreNoManifest | src/lib/archive/format.ts:27-33 | where all names survive the script's reading, none planned under the three prefixes is read as manifest.json |
| Archive.ReadAsManifest | scripts/dbackup-recover.js:396-407 | the family of pax names that are read as manifest.json |
| Archive.ManifestHijacked | scripts/dbackup-recover.js:474-482 | a clear archive of one such file, built: opening it reads that file's content for the manifest, and fails where that is none |
| Archive.OpensExactly | scripts/dbackup-recover.js:467-515 | for the manifest of any finished archive, the last member read as manifest.json is read; it opens to the archive that was written if and only if that one leads to its own secret |
| Archive.ClosedIsWrittenOut | src/lib/archive/writer.ts:585-612 | any archive can be closed with its own index as the last member |
| Archive.OwnEntryFound | src/lib/archive/writer.ts:507-523 | whatever lines are carried besides, the index answers an archive's own key with that entry's own line |
| Archive.DecodeUndoesStore | scripts/dbackup-recover.js:567-575 | reading, unsealing and decompressing undoes compressing, sealing and storing |
| Archive.EntryReadsBack | scripts/dbackup-recover.js:567-575 | every entry of a created archive whose member name is not repeated later reads back as its plain content |
| Chain.OpenChain | scripts/dbackup-recover.js:544-559 | the loop over the dependencies opens the files that are there, names what is missing, and ends at the first that cannot be opened |
| Chain.OpenedChainExact | scripts/dbackup-recover.js:544-559 | it fails if and only if some dependency in the folder cannot be opened; otherwise the chain holds exactly those present, each as its file opens, and the missing list exactly the others |
| Chain.ResolvesToHolder | scripts/dbackup-recover.js:676-685 | resolving any line of an archive of a history leads to the archive that holds its bytes and to its own entry there |
| Chain.CarriedEntryExact | src/lib/archive/chain.ts:78-89 | the entry found again from a needed key is the physical holder's own entry, marked with that holder, never with an intermediate archive |
| Chain.CarriedLineOrigin | src/lib/archive/chain.ts:54-76 | a carried file line is a kept line of the predecessor with its physical holder written out, together with the entry carried for it |
| Chain.FollowsKeepsInv | src/lib/archive/writer.ts:557-585 | creating the next archive keeps every line of its index pointing at readable, right bytes, and every file of the tree listed |
| Chain.HistoryKeepsInv | src/lib/archive/chain.ts:45-93 | so does every history of a full archive and any number of incrementals |
| Chain.ReadsThroughHolder | scripts/dbackup-recover.js:676-692 | under that invariant every line reads as the tree's content, through the chain |
| Chain.OpensAsWrittenExactly | scripts/dbackup-recover.js:467-559 | for every history, opening the newest archive and its dependencies from their files gives what was written if and only if, in each of them, what is read for the manifest leads to its own secret |
| Chain.SurvivingNamesOpen | src/lib/archive/format.ts:27-33 | archives whose names all survive the script's reading meet that condition |
| Chain.OpaqueNamesOpen | src/lib/archive/writer.ts:115-116 | and encrypted archives always do |
| Chain.ChainRestoresTree | scripts/dbackup-recover.js:467-692 | for every history, opened from nothing but the files of the folder: where every manifest needed is read right, nothing is missing, every file of the tree is listed, and each reads as exactly its content; elsewhere it does not open as written |
| Chain.NextTreeExact | src/lib/archive/writer.ts:557-565 | a run preserves a given snapshot if and only if it keeps only unchanged files, stores the others as they now are, and forgets none |
| Chain.ChainRestoresSnapshots | scripts/dbackup-recover.js:467-692 | for every given sequence of snapshots stored so, and under the same exact condition, every archive of the chain reads back as exactly its snapshot |
| Chain.OpaqueNamesNeverRepeat | src/lib/archive/writer.ts:115-116 | encrypted archives meet the condition on member names by themselves |
| Chain.FirstAlwaysPossible | src/lib/archive/writer.ts:333-612 | a full backup of any valid plan can be made, its index included, and starts a history |
| Chain.NextAlwaysPossible | src/lib/archive/chain.ts:78-87 | carrying forward from any archive of a history never misses an entry: whatever is kept and whatever valid plan is stored, the next archive can be made |
| Unseal.UnsealStream.Transform | scripts/dbackup-recover.js:589-605 | after any chunk the decipher has had exactly the input before the last sixteen bytes, and those are held back |
| Unseal.UnsealStream.Flush | scripts/dbackup-recover.js:606-620 | the verdict at the end is that of opening the whole input, truncation included |
| Unseal.StreamEntry | scripts/dbackup-recover.js:584-622 | for every division into chunks the stream accepts or rejects as opening in one piece does and emits the same plaintext |
| Unseal.OpenUndoesSeal | scripts/dbackup-recover.js:110-127 | opening undoes sealing, and the ciphertext opens with its own tag only |
| Unseal.NoncesDistinct | scripts/dbackup-recover.js:102-108 | nonces are equal if and only if prefix and ordinal are |
| Unseal.NonceLayout | scripts/dbackup-recover.js:102-108 | a nonce is four bytes of prefix, zero-filled, and eight of ordinal, highest first; beyond 2^64 there is none |
| Glob.GlobToRegExp | scripts/dbackup-recover.js:699-710 | the character loop emits the compiled form of the whole pattern |
| Glob.CompiledReadsBack | scripts/dbackup-recover.js:699-710 | what it emits, read as a regular expression, is the intended sequence of terms for every pattern |
| Glob.CompilerPreservesMeaning | scripts/dbackup-recover.js:698-710 | the produced expression accepts a path exactly when a direct recursive glob matcher does; without line terminators the matcher is the plain one |
| Glob.WildcardsExact | scripts/dbackup-recover.js:698-710 | what each wildcard takes by itself: a question mark one character but a slash, a star any without a slash, a double star any without the four line terminators |
| Glob.PlainPatternExact | scripts/dbackup-recover.js:708 | a pattern without wildcards matches its own text and nothing else |
| Glob.PatternInTwo | scripts/dbackup-recover.js:699-710 | the parts of a pattern take the parts of a path, at some cut of it, where no two stars meet |
| Glob.NewlineStopsDoubleStar | scripts/dbackup-recover.js:698-710 | a newline in the path: the double star does not cross it, the single one does |
| Glob.SingleStarStaysInSegment | scripts/dbackup-recover.js:698 | a pattern without a double star only matches paths with as many separators as itself |
| Glob.MatchesAnyExact | scripts/dbackup-recover.js:712-719 | any path passes if and only if there are no patterns, or one equals it, is a folder above it, or matches it |
| Paths.StringCheckExact | scripts/dbackup-recover.js:1641-1643 | the string comparison decides containment exactly, except that it admits nothing below the file system root |
| Extract.Extraction.StreamEntryToFile | scripts/dbackup-recover.js:632-668 | step by step, the disk goes through the states the specification lists; the result is written only if the digest of what arrived is the one recorded, or none is, and a mismatch only if another is |
| Extract.Extraction.StoreOne | scripts/dbackup-recover.js:1655-1678 | streamed and bundled files, with the two counters: a wrong digest makes a streamed one a mismatch and a bundled one written but unverified, and both are counted |
| Extract.Extraction.CommandExtract | scripts/dbackup-recover.js:1588-1689 | a chain with archives missing is refused untouched; else databases, files, then links: the states and counters of the whole run, and that a throw ends it where it stands |
| Extract.FilePhaseInTwo | scripts/dbackup-recover.js:1606-1679 | the run over a list of rows is the run over its parts, one after the other |
| ExtractSafety.VerifyBeforeVisible | scripts/dbackup-recover.js:624-668 | in every state before a successful end, and for good after any failure, the target keeps its previous content; on success it holds exactly the decoded entry, whose digest is the recorded one if one is recorded; nothing else changes |
| ExtractSafety.DigestDecides | scripts/dbackup-recover.js:658-667 | once the stream is open and delivers everything, a digest other than the recorded one leaves the target as it was and reports a mismatch, and the right one, or none recorded, makes the content visible unless a directory is there |
| ExtractSafety.NoPartialRemains | scripts/dbackup-recover.js:632-667 | failing before the stream is open changes no file; after that a partial file is left behind if and only if all was delivered and verified and a directory is at the target |
| ExtractSafety.ChecksAdmitOnlyBelow | scripts/dbackup-recover.js:1612-1645 | every row that gets past the checks has a target strictly below the output directory, or is that directory, whatever its name or path |
| ExtractSafety.ContainedExactly | scripts/dbackup-recover.js:1606-1679 | for any rows the checks admit, every state is contained if the run never opens a file for a row naming the output directory itself, and only if, unless that writes what is there already or streams nothing onto an empty file |
| ExtractSafety.FilePhaseBeside | scripts/dbackup-recover.js:1606-1679 | whatever such rows do, nothing outside changes but the directory's own place and the entry beside it; rows below still land inside |
| ExtractSafety.ExtractionStaysInside | scripts/dbackup-recover.js:1606-1689 | the same over a whole run, for any index and any links it lists; no link exists before the last file is on disk, and where no storing row resolves to the output directory every write lands physically inside it |
| ExtractSafety.RootRowWritesBeside | scripts/dbackup-recover.js:1643-1676 | opening a file for such a row leaves a file beside the output directory or in its place, on any disk with no link in the way |
| ExtractSafety.RootRowOutcome | scripts/dbackup-recover.js:653-667 | over an existing directory a verified row of this kind throws and ends the run; over none it takes its place, and no row below can be extracted after it |
| ExtractSafety.SafeNamesAreSegments | scripts/dbackup-recover.js:78-81 | a flattened name is never empty, has no separator and starts with no dot |
| ExtractSafety.DatabaseRefusedExactly | scripts/dbackup-recover.js:1611-1617 | whatever its name, a database's dump goes strictly below the output directory, and is refused only where that is the top of the file system |
| ExtractOutcome.FilePhaseReplays | scripts/dbackup-recover.js:1606-1679 | a file phase, thrown or not, leaves exactly what its rows left in order: one content per verified file, one sweep per streamed one, and what the row that threw left |
| ExtractOutcome.ThrowingTaskReplays | scripts/dbackup-recover.js:632-668 | what a row that throws leaves: a swept partial file, a verified one that could not be renamed, or nothing |
| ExtractOutcome.DoneUntilThrow | scripts/dbackup-recover.js:1606-1679 | a phase that threw is all rows before one that threw, and what that one left |
| ExtractOutcome.LastAlterationShows | scripts/dbackup-recover.js:1606-1679 | a path shows at the end what the last row that wrote or swept it left there |
| ExtractOutcome.ExtractedFileExact | scripts/dbackup-recover.js:1606-1679 | a verified file's content is on disk after the file phase, as far as that got, if and only if the last later row that wrote its path, or swept it as a partial file, left the same content, or there was none |
| ExtractOutcome.DatabasesCollide | scripts/dbackup-recover.js:1611-1612 | databases called a/b and a_b are written to one path |
| ExtractOutcome.LaterDumpWins | scripts/dbackup-recover.js:1606-1628 | and what is there in the end is the dump of the second |
| ExtractOutcome.DotDotNamesTheRoot | scripts/dbackup-recover.js:1641-1643 | a row with the path .. under any source resolves to the output directory and is not refused |
| ExtractOutcome.PartialNameIsSwept | scripts/dbackup-recover.js:632-666 | a file called like a later row's partial file is gone after that row |
| ExtractOutcome.LinkPhaseKeeps | scripts/dbackup-recover.js:1681-1691 | links never write a file: one is there after them if and only if none of them took it away |
| ExtractOutcome.LinkAtFilePath | scripts/dbackup-recover.js:1681-1686 | a link row at a file's own path takes it away |
| ExtractOutcome.FlatLinksClear | scripts/dbackup-recover.js:1681-1691 | where no link row lies below another, exactly the link rows with the file's own path do, as far as the phase got; if it threw nothing, all of them |
| ExtractOutcome.WholeRunLeaves | scripts/dbackup-recover.js:1606-1691 | the two together: when a verified file's content is on disk after the whole run, wherever that ended |
| ExtractOutcome.CountersExact | scripts/dbackup-recover.js:1619-1678 | a phase that threw nothing reports as mismatches exactly the rows with a wrong digest, and as extracted all rows but the streamed ones of these |
| ExtractRoom.RowThrowsExactly | scripts/dbackup-recover.js:632-668 | when a row below the output directory throws: its content cannot be had whole, a file is in the way of its directories, a directory is in its place, or, streamed, its entry is empty or a directory is in the partial file's place |
| ExtractRoom.RunsThrough | scripts/dbackup-recover.js:1606-1679 | with room on the disk for every row, none in the way of another, and all content complete, an extraction gets through its rows |
| ExtractRoom.DirectoryTakesPartialName | scripts/dbackup-recover.js:632-637 | files x.partial/y and then x of one source: the run throws |
| ExtractRows.FlattenedExactly | scripts/dbackup-recover.js:78-81 | separators, control characters and a leading dot become underscores, every other character stays, and an empty name becomes one underscore |
| ExtractRows.DumpLandsAt | scripts/dbackup-recover.js:63-81 | a dump lands in the folder databases under its flattened name and its format, dump for the format custom |
| ExtractRows.FileLandsAt | scripts/dbackup-recover.js:1641 | a file of plain names lands under its source, those names further down |
| ExtractRows.DotsAndTop | scripts/dbackup-recover.js:1641 | a path from the top leaves the output directory altogether, one dot stays, two dots lead out of the source |
| ExtractRows.DatabaseRowExact | scripts/dbackup-recover.js:1606-1620 | a dump is stored if and only if it is selected and the output directory is not the top of the file system, from its own entry and with its own checksum |
| ExtractRows.FileRowExact | scripts/dbackup-recover.js:1637-1655 | a file is stored if and only if it is no link, is selected, and leads to the output directory or below it |
| ExtractRows.LinkRowsInOrder | scripts/dbackup-recover.js:1635-1653 | exactly the selected and safe link lines are kept for the end, each with its target and its text, in index order |
| ExtractRows.LinksMade | scripts/dbackup-recover.js:1681-1687 | after a link phase that threw nothing every target is a link with the text of its last row, and all other links are as before, where none lies below another |
| Restore.GetsThrough | scripts/dbackup-recover.js:1588-1679 | an extraction of any archive of a chain whose manifests are read right gets through its first rows where there is room for them and none of them streams an empty entry |
| Restore.FilesRestored | scripts/dbackup-recover.js:1588-1679 | for every sequence of snapshots stored as a chain whose manifests are read right, extracting any archive of it onto a disk with room: once its first rows are done, each selected file among them whose checksum is right or absent is in its place with exactly the snapshot's content, if and only if no later one of them left anything else there; if they keep apart, all are |
| Restore.DumpsRestored | scripts/dbackup-recover.js:1588-1628 | and so is the dump of every database in the plan: each is listed under its name and ordinal, and where its row is selected and among the first ones its content is in its place, under the same condition |
| Restore.DumpRowExact | scripts/dbackup-recover.js:1606-1617 | which rows of dumps are selected, and the path of each |
| Restore.FileIsListed | scripts/dbackup-recover.js:1588-1655 | every file of a snapshot is listed in its archive, and its row stores something exactly where it is selected and safe, at the path its source and names lead to |
| Restore.LinksRestored | scripts/dbackup-recover.js:1681-1691 | every link of the plan is listed with its text, and is on disk after a run that threw nothing, if it is selected, safe and the only one at its path |
| Restore.LinksLeaveFiles | scripts/dbackup-recover.js:1681-1691 | and they are still there after the links, where no link has a file's path or lies below another |
| Restore.EmptyFileEndsRun | scripts/dbackup-recover.js:637 | an empty file stored clear and uncompressed ends every extraction that selects it, on any disk |
| LineReader.Reader.ReadLine | scripts/dbackup-recover.js:1124-1157 | one question gets what the rest of the input dictates, and leaves everything after its line |
| LineReader.AskTimes | scripts/dbackup-recover.js:1122-1157 | for every division of the input into chunks, any number of questions get the answers of the undivided input |
| LineReader.AnswersAreLines | scripts/dbackup-recover.js:1122-1157 | those answers are the newline-terminated lines, each without one carriage return, then one empty answer for the end and an unterminated rest, then none |
| Prune.Matchers.GetCompiled | src/lib/exclude-patterns.ts:12-19 | the memo table only remembers: its answer is always the freshly compiled pattern |
| Prune.Matchers.CanPruneDirectory | src/lib/exclude-patterns.ts:71-86 | the loops return what the specification names: nothing for an empty path, else the first pattern, blank ones aside, that matches every probe |
| Prune.FirstThatMatchesInside | src/lib/exclude-patterns.ts:55-86 | and that is the first pattern, blank ones aside, that matches one hypothetical file directly inside, one a level deeper and one deeper still; nothing if none does |
| Prune.BareNameNeverPrunes | src/lib/exclude-patterns.ts:58-62 | a pattern that is a bare name gets no directory pruned, unless the name is the one the hypothetical files carry |
| Prune.NamedEndNeverPrunes | src/lib/exclude-patterns.ts:58-62 | nor does any pattern whose alternatives all end in a segment with a character that name lacks |
| Prune.NameAnywherePrunesExactly | src/lib/exclude-patterns.ts:45-57 | a name between two double stars prunes exactly the directories of that name and everything below them |
| Prune.SegmentInTwo | src/lib/exclude-patterns.ts:12-19 | the parts of a segment pattern take the parts of a name, at some cut of it |
| Prune.PiecesExact | src/lib/exclude-patterns.ts:12-19 | what a star, a question mark and a character take by themselves |
| Prune.ProbingExact | src/lib/exclude-patterns.ts:42-86 | for patterns with no tail longer than the probes, all probes match if and only if the pattern excludes every path strictly below, at any depth and under any names |
| Prune.PruningIsSound | src/lib/exclude-patterns.ts:45-70 | if the pattern returned is one that probing decides, that pattern excludes everything below the directory, whatever the rest of the list holds |
| Prune.PrunedWalkKeepsTheSame | src/lib/exclude-patterns.ts:45-70 | over any tree the pruned walk keeps exactly what filtering the full walk keeps, in the same order |
| Prune.FullWalkExact | src/lib/adapters/storage/local.ts:72-154 | without pruning, the walk lists exactly the files of the tree |
| Prune.PrunedWalkExact | src/lib/exclude-patterns.ts:45-70 | so the pruned and filtered walk keeps exactly the files of the tree that no pattern matches |
| Prune.TailBoundSharp | src/lib/exclude-patterns.ts:42-43 | at every probing depth, one segment more after the last double star and all probes match while a deeper path is wanted; with three probes it is `**/b/*/*/*` on b/b/b |
| Prune.BracesPassProbes | src/lib/exclude-patterns.ts:55-57 | one brace alternative per probed depth passes every probe and keeps what lies deeper |
| Prune.OnePartDecides | src/lib/exclude-patterns.ts:58-62 | for patterns of one segment, negated or not: when they are probed as prunable, and when that is true |
| Prune.ForeignCharacterHonest | src/lib/exclude-patterns.ts:39-40 | a segment with any literal character that `__dbackup_probe__` lacks cannot mistake the probe for all names |
| Gate.Slots | src/lib/concurrency.ts:27 | one slot for a limit below one, and otherwise its whole part |
| Gate.Gate.Enter | src/lib/concurrency.ts:31-33 | up to the first await: inside if a slot is free, and otherwise at the end of the queue |
| Gate.Gate.Leave | src/lib/concurrency.ts:36-39 | after a call settles: its slot is free, and the first of the queue, if any, is woken |
| Gate.NeverStrands | src/lib/concurrency.ts:26-41 | in every schedule a non-empty queue means all slots are in use or promised, waiters start in the order they queued, and the counter counts the calls inside |
| Gate.FirstComeFirstServed | src/lib/concurrency.ts:32-38 | in every schedule, counting only the slots in use: the callers that found none free go on in exactly the order they came, and those not yet resumed are the rest of them |
| Gate.NobodyLost | src/lib/concurrency.ts:31-39 | everyone who came waits, is woken, is inside or has left, each once |
| Gate.OverbookedByBarging | src/lib/concurrency.ts:32-38 | slots in use and promised exceed the limit by no more than the fresh calls that slipped in |
| Gate.BoundExact | src/lib/concurrency.ts:32-38 | they stay within the limit all the way if and only if none slips in |
| Gate.LimitExact | src/lib/concurrency.ts:15-16 | in every schedule, none slips in if and only if at every moment, however the calls in hand go on, at most the limit is inside |
| Gate.PromptKeepsLimit | src/lib/concurrency.ts:32-38 | with woken callers going on before fresh ones look, at most the limit is ever inside |
| Gate.BargingBreaksLimit | src/lib/concurrency.ts:32-38 | wherever one slips in, letting the woken ones go on puts more than the limit inside |
| Gate.OneSlotTwoInside | src/lib/concurrency.ts:32-38 | the shortest such run, with one slot |
| Gate.QuietRunsAreShort | src/lib/concurrency.ts:36-39 | once calls stop arriving every schedule is finite, with an explicit bound |
| Gate.QuietMeansAllServed | src/lib/concurrency.ts:36-39 | and where nothing more can happen, everyone who ever queued has started and left |
| WorkerPool.Workers | src/lib/concurrency.ts:85 | one worker for a limit below one, never more than items, and otherwise the whole part of the limit |
| WorkerPool.MapCall.constructor | src/lib/concurrency.ts:77-98 | starting the workers takes the first items in order |
| WorkerPool.MapCall.Settle | src/lib/concurrency.ts:88-96 | storing a result and pulling the next index, or rejecting |
| WorkerPool.StartsInOrderWithinLimit | src/lib/concurrency.ts:85-98 | in every completion order items start as a growing prefix, each once, no more are in flight than there are workers, and each rejection takes out exactly one |
| WorkerPool.StoredExactly | src/lib/concurrency.ts:88-96 | an item has a result exactly if its call resolved with it, and counts as failed exactly if its call rejected |
| WorkerPool.ResultsMatchSequentialMap | src/lib/concurrency.ts:77-100 | if no call rejects the results are those of the sequential map, in input order, for every completion order |
| WorkerPool.StopsExactly | src/lib/concurrency.ts:9-13 | the documented stop after the first rejection holds over all runs if and only if there is one worker or every item starts at once |
| WorkerPool.AllStartUnlessAllWorkersFail | src/lib/concurrency.ts:88-98 | at the end every item has started unless every worker has rejected |
| Claim.HeldStaysHeld | src/lib/runner.ts:79-102 | after a successful claim nobody else gets through, and a step of a loser changes neither row nor registry |
| Claim.AtMostOneWinner | src/lib/runner.ts:74-87 | for any number of callers and any interleaving, the first update of a pending run wins and that caller alone ever changes row or registry; a run not pending is left alone by all |
| Claim.LeavesOnce | src/lib/runner.ts:79-332 | nobody but the winner leaves a pipeline, once, and what it left with is what the row ends with |
| Claim.EveryoneDone | src/lib/runner.ts:79-102 | when all have returned, at most one ran the pipeline, exactly one if its record was found, the row then has the status that pipeline left with, and the registry entry is gone |
| Lifecycle.Execution.SetStage | src/lib/runner.ts:184-214 | closing the stage left, with its name, the word its status calls for and the time since it was set, and opening the new one |
| Lifecycle.Execution.RunPipeline | src/lib/runner.ts:269-290 | the steps run in order up to the first that throws or is followed by a requested abort |
| Lifecycle.PipelineOfRun | src/lib/runner.ts:269-290 | which steps a run consists of, in which order and under which stages, where cancellation is checked, and where the run stops |
| Lifecycle.Execution.PerformExecution | src/lib/runner.ts:269-332 | outcome, log and final row of any run, and everything it asks of the abort registry and the flusher, in order |
| Lifecycle.AskedInOrder | src/lib/runner.ts:297-328 | every run asks for notes, the closing line, the flush, disposal, what cleaning up logs, the final row and what notifying logs, in this order and nothing else |
| Lifecycle.FinalRowOfRun | src/lib/runner.ts:318-328 | for every run, the final row stands to the very end if and only if clean-up and notifications log nothing, no write is under way at the closing line and it starts none, however requests and writes interleave before and after |
| Lifecycle.FailingRunOverwritten | src/lib/runner.ts:302-328 | for every interval, a failing run from its first line whose progress lands on the final row |
| Lifecycle.EndsInOneWay | src/lib/runner.ts:292-317 | every run ends as exactly one of Success, Partial, Failed and Cancelled, each under its exact condition on what the steps threw, marked partial and were asked to abort |
| Lifecycle.NoStageCompletedAfterFailure | src/lib/runner.ts:185-206 | stages left before a failure are logged completed; from then on, clean-up and notifications included, a failed run logs every stage left as failed and a cancelled one as aborted |
| Lifecycle.LogOfRun | src/lib/runner.ts:165-214 | the log of a whole run, words aside, read off its actions: each stage left is closed under its own name with the time since it was last set, and every line stands under the stage of its moment |
| LogFlusher.LogFlusher.Schedule | src/lib/execution/log-flusher.ts:114-132 | a change to the live state and the request that follows it |
| LogFlusher.LogFlusher.WriteSettles | src/lib/execution/log-flusher.ts:92-111 | the end of a write, with at most one repeat |
| LogFlusher.SingleFlight | src/lib/execution/log-flusher.ts:92-111 | in every run one write at most is under way, and stored states only ever get newer |
| LogFlusher.WrittenAtOnceExactly | src/lib/execution/log-flusher.ts:114-132 | in every run, a change is written at once if and only if nothing is deferred or under way and the last write began at least an interval ago; with nothing under way it is otherwise deferred |
| LogFlusher.CoveredExact | src/lib/execution/log-flusher.ts:43-52 | exactly which steps drop a request instead of deferring it |
| LogFlusher.NoteRepairs | src/lib/execution/log-flusher.ts:114-132 | the next request makes good for an earlier loss unless it is dropped itself |
| LogFlusher.NothingDropped | src/lib/execution/log-flusher.ts:43-52 | where no step drops a request, a run come to rest has sent its newest state |
| LogFlusher.SlowRepeatLosesState | src/lib/execution/log-flusher.ts:92-111 | for every interval, a run whose newest state is never sent |
| LogFlusher.AwaitedFlushLeavesNothing | src/lib/execution/log-flusher.ts:134-137 | a flush that finds no write under way leaves nothing unsent and nothing deferred |
| LogFlusher.FinalRowSafeExactly | src/lib/runner.ts:322-328 | with no further request, no progress lands after the final row if and only if no write was under way at disposal |
| LogFlusher.ShutdownSafeExactly | src/lib/execution/log-flusher.ts:134-141 | a closing line, an awaited flush and disposal are safe if and only if no write is under way at the line and it comes within the interval or finds a write deferred |
| LogFlusher.FinalStandsExactly | src/lib/runner/steps/04-completion.ts:29-190 | the same for every shutdown of a flusher, whatever clean-up and notifications ask of it and however long its writes go on |
| LogFlusher.BusyOverwrites | src/lib/runner/steps/04-completion.ts:29-190 | from any state, notes before or after the final row, or a write under way, and a run in which progress lands on that row |
| ExcludeSummary.SummariseExcluded | src/lib/exclude-summary.ts:47-91 | the two loops over the map of buckets produce the summary that filtering, summing and sorting define |
| ExcludeSummary.SummaryConserves | src/lib/exclude-summary.ts:41-90 | files, bytes and pruned directories per pattern add up to the totals |
| ExcludeSummary.FirstMatchWins | src/lib/exclude-summary.ts:67 | a file is attributed to the first pattern of the list, blank ones aside, that matches it, and to an unknown pattern if none does |
| ExcludeSummary.BucketHolds | src/lib/exclude-summary.ts:69-79 | a bucket holds exactly the files and directories attributed to its pattern; its examples are the first five or all, and the rest is announced by number |
| ExcludeSummary.BucketAddsUp | src/lib/exclude-summary.ts:65-73 | one more excluded file anywhere in the list adds one file and its size to the bucket of its pattern, and nothing to any other |
| ExcludeSummary.KeysInOrder | src/lib/exclude-summary.ts:53-60 | before sorting, each pattern stands once, in the order in which they first turn up among files and then directories |
| ExcludeSummary.SortedIsStable | src/lib/exclude-summary.ts:85-89 | rows come by files, then by pruned directories, both falling, ties staying in order, none added or lost |
| ConfigSync.Limits.SyncRateLimitConfig | src/middleware.ts:20-46 | who starts a fetch, who returns at once and who waits, and that the marker stays truthful unless a started fetch fails before it waits |
| ConfigSync.SingleFlight | src/middleware.ts:24-46 | in every interleaving one fetch at most runs, the marker is set exactly while it does, and the cache is what the limiters use |
| ConfigSync.FetchStartsExactly | src/middleware.ts:20-26 | a request starts a fetch if and only if none runs and the last good answer, if there was one, is at least half a minute old |
| ConfigSync.QuietForAnInterval | src/middleware.ts:21-22 | for half a minute after any good answer no request changes anything |
| ConfigSync.AppliedIsLastGood | src/middleware.ts:33-40 | the limiters always use the last good answer; failures leave it in place |
| ConfigSync.RequestKeepsInv | src/middleware.ts:27-45 | the marker stays truthful if and only if the fetch gets as far as waiting |
| ConfigSync.EarlyFailureSticks | src/middleware.ts:27-45 | otherwise nothing is ever fetched again |
| ConfigSync.NoBackOff | src/middleware.ts:38-42 | failures alone never slow fetching down |
| Versions.VersionFound | src/lib/utils.ts:71-79 | the first dotted number is extracted whatever text stands around it |
| Versions.CompareVersions | src/lib/utils.ts:68-90 | the index loop over parts of different lengths decides as the zero-padded comparison does |
| Versions.FirstDifferenceDecides | src/lib/utils.ts:81-90 | the sign is that of the first place where the padded numbers differ, zero if there is none |
| Versions.VersionsArePreordered | src/lib/utils.ts:63-91 | on strings that are there, comparing is antisymmetric in sign and transitive |
| Versions.TrailingZerosUnseen | src/lib/utils.ts:81-90 | any number of trailing zero components makes no difference |
| Versions.TransitiveThroughExactly | src/lib/utils.ts:68-69 | comparing through a middle version is transitive if and only if that version is there |

## Left out

- untilAborted, path slash stripping, fitRow, groupBackups, keyFor: short functions that would only add easy members.
- restoreWholeFile and unpackMultiDbTar: the older single-file format; the archive format is the harder one.
- The heuristics that guess whether content was decrypted: they promise nothing exact.
- Gate.Slots and WorkerPool.Workers: a limit that is not a number, or infinite, is not modelled.
- Archive.EntryReadsBack: assumes that the TAR library gives an entry with nothing but a name a pax header with nothing but its path.
- Chain.ChainRestoresTree: the sorting of dependencies and the serialisation of the index are not modelled; member names repeated within a clear archive are excluded, for the reason `Archive.OffsetExact` gives.
- Chain.CarriedLineOrigin: metadata refreshed on carrying forward (mode, owner, group) is not modelled.
- TarWalk.WalkMembers: ends at the first header that does not advance, where the code goes on (`TarWalk.NeverEndsExactly` says when for ever). Pax text is matched on its UTF-8 bytes; bytes that are not UTF-8 are not replaced. Memory limits of the buffers are not modelled.
- PaxNames.LengthReadExact: a record length too large for a double is not modelled, and a length that cuts a character outside the basic plane in two is applied after its first byte.
- Archive.OpensExactly: what a key and a manifest lead to, and how an index is unsealed, unpacked and parsed, are parameters.
- Restore.FilesRestored: names are decoded, streams divided and checksums recorded by parameters; the rows from one that names the output directory itself on are excluded, what that can do is `ExtractSafety.FilePhaseBeside`. What arrives of a stream before it breaks is not modelled: it never stays.
- TarNumeric.ReadNumeric: sums are exact integers where the code uses doubles; both leave the safe range at the same fields.
- ExtractSafety.ExtractionStaysInside: says nothing of where links themselves are created, and assumes no symbolic link below the output directory at the start. Its statements about rows naming that directory assume that the entry beside it is no symbolic link, which such a row would write through.
- Glob.CompilerPreservesMeaning: characters are Unicode scalar values, where the source's regular expressions see UTF-16 units, so `?` takes a character outside the basic plane at once.
- Extract.Extraction.CommandExtract: of the errors a file system can raise, those are modelled that follow from the names involved: a file or directory in the way, an unresolvable link. A full disk is not.
- Extract.Extraction.StreamEntryToFile: what the stages before the disk deliver is a list of chunks, complete or cut off by an error; that decrypting stages deliver the right ones is `Unseal.StreamEntry`.
- Prune.Matchers.CanPruneDirectory: the glob library is replaced by a segment-level matcher with literal, `?` and `*` pieces and `**`; braces come expanded; character classes and its path optimisations are left out.
- Prune.FullWalkExact: the walk is over a tree of files and directories; links, unreadable entries and limits on the walk are left out.
- ExtractRows.DumpLandsAt: a format called like a built-in property of objects, which the table of extensions would answer for, is not modelled.
- Claim.EveryoneDone: stored logs and metadata are taken to parse, as the enqueuing code stores them; a record that is absent after the claim leaves the row running, as in the code.
- Lifecycle.Execution.PerformExecution: what the steps do inside is any sequence of stage changes, log lines, progress updates, partial marks and abort requests, then a return or a throw; a final row that cannot be written and the start of the next run are not modelled.
- LogFlusher.FinalRowSafeExactly: a write lands when it settles.
- Versions.CompareVersions: components are exact integers of any length.
- All user interface code, services, authentication and database queries.
