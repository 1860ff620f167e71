# Kalien worker: verified models

This project models the server side of the Kalien leaderboard (the `worker/` directory) in Dafny and
proves what it promises. It covers how score events get from the Stellar ledger into the leaderboard
table, how the table is ranked and shown, and how replay tapes are checked and identified.

- `Basics.dfy`: what the others share.
- `Store.dfy`, `StoredRows.dfy`, `Retry.dfy`, `Updates.dfy`: the event table and its columns, its deduplicating
  upsert, batching with retry in halves, and what a write reports as updated.
- `Sync.dfy`, `Bridging.dfy`, `Ticks.dfy`: one synchronisation run and what it asks for, and the scheduled tick.
- `SyncSafety.dfy`, `Anchors.dfy`, `SyncProgress.dfy`, `MidLedger.dfy`, `LedgerCursors.dfy`: whole histories of
  runs, failures and new ledgers: what is never lost, when something can be, and what progress runs make.
- `Scan.dfy`, `LakePages.dfy`, `ObjectKey.dfy`: the ledger files of the data lake.
- `Xdr.dfy`, `XdrRoundTrip.dfy`: the XDR map decoder (RFC 4506, sections 4.2, 4.10, 4.11, 4.13, 4.15, 4.19).
- `Crc.dfy`, `Tape.dfy`, `ReplayHash.dfy`: the tape format, its CRC-32 (section 8 of RFC 1952), and the replay identity.
- `Ranking.dfy`, `RankingLaws.dfy`, `PageWalk.dfy`, `Board.dfy`: the leaderboard, and the query over the table.
- `Recovery.dfy`, `Backfill.dfy`: joining leaderboard events to proof jobs.

Code that changes things step by step is modelled by methods and classes; each is proved against a
function on values, and the laws are proved about that function. Proofs use `hide` to keep
definitions that a step does not need away from the solver.

## Assumptions

They appear as `requires` clauses, or as parameters.

- A batch write has its whole effect or none, and which attempts fail is arbitrary (`fails`).
- A page of the source holds chain events only, and all of them from where it starts up to the last
  ledger it shows or passes, so it never ends inside a ledger (`SyncSafety.GoodPage`).
  `MidLedger.PageEndingInsideALedger` shows an event being lost without this, and
  `LakePages.LakePageExact` says exactly when a page of the data lake meets it.
- The source gives an event the same id every time, honours an opaque cursor, and still has every
  ledger it is asked for; nothing else writes to the database at the same time.
- The chain begins at ledger 2, and its scores are unsigned.
- The 32-bit row hash, the lower-casing of transaction hashes, SHA-256, StrKey and text decoding are
  parameters. Only the last-writer-wins results need that equal hashes of one id mean equal rows; that
  no event is lost does not depend on it.

## Findings

Properties that the code does not have, with the exact condition or an example:

- An event can be lost when a later forward run starts without a cursor and without a highest ledger, because
  the source then chooses its own start. A page without a cursor, before any event was seen, leads there
  (`Anchors.LostWithoutAnchor`). The condition is exact (`Anchors.AnchorNeeded`), and it never arises on a source
  that always gives a cursor (`Anchors.CursorsAnchor`), nor once an event was seen (`Anchors.SeenAnchors`).
- From a `ledger:N` cursor a run starts 8000 ledgers behind what it knows. It can pass that exactly when its five
  pages reach further (`LedgerCursors.PassesExactly`); if they do not, no number of runs raises the highest known
  ledger, however far the chain grows (`LedgerCursors.LedgerCursorStalls`). Data-lake pages with the default limit
  do not (`LakePages.LakeIsLedgerPages`, `LakePages.DefaultLakeCannotPass`).
- On such cursors the resume point can move back, exactly when the cursor is ahead of the highest ledger and of the
  start of the run (`LedgerCursors.MovesBackExactly`).
- A catch-up run whose first page is full can go on behind its requested end (`LedgerCursors.FullCatchupRaises`);
  otherwise it does not (`LedgerCursors.CatchupStays`).
- Chained data-lake pages leave out the rest of a file whenever a page ends inside it
  (`Scan.ChainGapless`, `Scan.GapExample`).
- Following page links shows the whole ranking exactly when the last page starts at or below offset
  10000 (`PageWalk.WalkExact`); otherwise entries repeat, and the walk may not end.
- The query ranks rows with a score of zero, the computed leaderboard does not; the totals agree
  exactly when every best row is positive (`RankingLaws.RankingRefinesQuery`).
- The checksum of a tape does not cover its final score (`Tape.ScoreNotCovered`).
- The reported number of updates depends on how a write is split, exactly when some batch of 64 replaces a record
  with a new hash by a different one of the same id (`Updates.UpdatesInvariant`).
- The stored total falls short of the rows by what failed runs inserted after the first completed run
  (`SyncProgress.TotalsExact`).

Where the code and a comment disagree, the model follows the code: a comment
(worker/leaderboard-sync.ts:178-179) speaks of plain toid cursors, but a cursor of bare digits is taken
as a ledger number before that (worker/leaderboard-sync.ts:151-168).

## Model

| member | source | states |
|---|---|---|
| Store.Database.GetExistingEventHashes | worker/leaderboard-store.ts:413-451 | reading in chunks of 200 gives the hash of every asked id that has a row, and no other |
| Store.Database.Dedupe | worker/leaderboard-store.ts:530-534 | the last record of every id, and each id once |
| Store.Database.Plan | worker/leaderboard-store.ts:563-607 | exactly the new and the changed storable rows are written, and the counters count them |
| Store.Database.UpsertLeaderboardEvents | worker/leaderboard-store.ts:519-614 | a successful call leaves the batch table and its counts, a failed one changes no row |
| StoredRows.RowRoundTrip | worker/leaderboard-store.ts:587-605 | the columns of a row give back every event with unsigned numbers, up to the lower-casing of its transaction hash |
| StoredRows.RowWraps | worker/leaderboard-store.ts:563-605 | other numbers wrap around modulo 2^32, a negative frame count is dropped, and the row hash is that of the record with the stored frame count and score |
| Retry.UpsertChunkWithFallback | worker/leaderboard-sync.ts:241-274 | retrying in halves has the table, attempts and outcome of the specification, for every pattern of failures |
| Retry.UpsertSafely | worker/leaderboard-sync.ts:276-296 | the same for batches of 64 one after the other |
| Retry.BatchesOf64 | worker/leaderboard-sync.ts:286-293 | without failures there is one attempt for every 64 records |
| Retry.RetriedInHalves | worker/leaderboard-sync.ts:258-267 | a failed batch is retried as two halves |
| Retry.WriteAllGrows | worker/leaderboard-sync.ts:276-296 | whatever fails or collides, no row disappears, rows come from the records with a score of at least zero, and a complete write reports exactly the growth of the table as inserted |
| Retry.BatchExact | worker/leaderboard-store.ts:578-586 | one batch is last-writer-wins exactly when no equal hash hides a different row |
| Retry.WriteAllRefines | worker/leaderboard-sync.ts:241-296 | for every pattern of failures the table is last-writer-wins over the first n records, and either n is all of them or record n failed when written alone |
| Retry.RetryRefines | worker/leaderboard-sync.ts:241-296 | if single writes succeed, everything is written, last writer wins, and inserted is the number of new ids |
| StoredRows.WrittenReadBack | worker/leaderboard-store.ts:530-612 | after a complete write the table gives back the last event of every id, and no other row changes |
| Retry.UpdatesNotInvariant | worker/leaderboard-store.ts:581-583 | for example, two records of one id count as one update when written apart and as none in one batch |
| Updates.BatchedOrSingly | worker/leaderboard-store.ts:563-607 | a batch counts at most as many updates as single writes do, and as many exactly when no record with a new hash is replaced in it by a different one |
| Updates.UpdatesInvariant | worker/leaderboard-sync.ts:241-296 | for every failure pattern in which single writes succeed, the updates reported lie between those of an undisturbed write and those of single writes; they are the same for all patterns exactly when every batch of 64 is calm in that sense |
| Updates.DistinctIdsInvariant | worker/leaderboard-sync.ts:241-296 | records of different ids report the number of changed rows under every such pattern |
| Updates.RepeatedIdVaries | worker/leaderboard-store.ts:581-583 | an id that repeats in a batch with another hash, where the earlier one is not the stored hash, makes two patterns report different numbers |
| Sync.ResolveFirstFetch | worker/leaderboard-sync.ts:306-356 | cursor, start and end of the first fetch: stale cursors dropped, rewind without an opaque cursor |
| Sync.ComputeNextState | worker/leaderboard-sync.ts:411-444 | the persisted state: cursor, highest ledger from events only, total by addition or recount |
| Sync.RunLeaderboardSync | worker/leaderboard-sync.ts:298-466 | a run has exactly the effect of the run specification: pages, then writes, then the state, and no state change on failure |
| Bridging.RunBridges | worker/leaderboard-sync.ts:373-408 | through full, partial and empty pages a completed run takes an opaque cursor five spans of a page further, or to the tip |
| Bridging.StopsAtTip | worker/leaderboard-sync.ts:376-386 | after a first page that is not full and shows no way to a later tip nothing more is asked |
| Bridging.HaltedRun | worker/leaderboard-sync.ts:388-446 | after a full page and a failed request a forward run keeps the events and the cursor of that page and records the halt |
| Bridging.ManualRequests | worker/leaderboard-sync.ts:306-350 | explicit bounds: a backfill asks for just these, a forward run keeps its start, and a rewound run moves its end up to its start |
| Bridging.RunAsks | worker/leaderboard-sync.ts:388-399 | a run depends only on answers to requests with its own end and its own limit, which is clamped to 1 to 1000 |
| Sync.RunScheduledLeaderboardSync | worker/leaderboard-sync.ts:496-533 | a tick is a forward run and, if due, a catch-up run over the window below the highest ledger |
| Ticks.TickCatchesUp | worker/leaderboard-sync.ts:118-147 | a tick runs a catch-up exactly when its forward run completed, it is configured, a highest ledger is known, and the interval since the last completed one is over |
| Ticks.OncePerInterval | worker/leaderboard-sync.ts:512-533 | over any ticks a catch-up run starts an interval after the last completed one at the earliest |
| Ticks.CatchupReads | worker/leaderboard-sync.ts:516-532 | a catch-up run asks for the window below the highest ledger, and completed it has every event from there to where the answer reaches in the table |
| Sync.RecordLeaderboardSyncFailure | worker/leaderboard-sync.ts:639-649 | only the error message changes |
| SyncSafety.PagesCover | worker/leaderboard-sync.ts:362-408 | the pages of one run together hold every event from its start up to where its last cursor or event reaches |
| SyncSafety.RunWrites | worker/leaderboard-sync.ts:362-446 | a run keeps the table faithful to the chain and its rows, and a completed run has every fetched event in the table |
| SyncSafety.StartBehindFrontier | worker/leaderboard-sync.ts:306-349 | no run starts beyond the ledger after the known frontier |
| SyncSafety.StepSafe | worker/leaderboard-sync.ts:298-533 | every forward run, catch-up run, failure and new ledger keeps the safety invariant, except a later forward run from a state without cursor and highest ledger |
| SyncSafety.NoEventLost | worker/leaderboard-sync.ts:303-446 | after any history from a fresh database in which later forward runs start with a cursor or a highest ledger, every event from where the first completed run started to the resume point has its row in the table |
| Anchors.AnchorNeeded | worker/leaderboard-sync.ts:340-349 | that condition is exact: after the first completed run no continuation can lose an event exactly when the state has a cursor or a highest ledger |
| Anchors.LostWithoutAnchor | worker/leaderboard-sync.ts:340-349 | an empty page, an empty page without a cursor and a page from a later start lose an event at ledger 5000 behind a frontier of 100000 |
| Anchors.CursorsAnchor | worker/leaderboard-sync.ts:427-438 | on a source that always gives a cursor the condition holds for every history, and the first scanned ledger never changes |
| Anchors.SeenAnchors | worker/leaderboard-sync.ts:424-433 | once an event was seen the condition holds whatever the source answers |
| Anchors.LedgerOfToid | worker/leaderboard-sync.ts:170-192 | the ledger of an opaque cursor is in the upper bits of its number |
| SyncSafety.TickIsRuns | worker/leaderboard-sync.ts:500-533 | a tick is one or two of these steps |
| SyncProgress.OpaqueStart | worker/leaderboard-sync.ts:315-349 | on an opaque cursor, stale or not, a run starts right after the frontier |
| SyncProgress.ForwardProgress | worker/leaderboard-sync.ts:373-446 | on an advancing source a completed forward run reaches the tip or passes the old frontier, and other runs leave the frontier |
| SyncProgress.CatchupKeepsCursor | worker/leaderboard-sync.ts:427-440 | backfill never changes the forward cursor nor lowers the frontier |
| SyncProgress.NeverBack | worker/leaderboard-sync.ts:303-446 | on an opaque cursor and an advancing source the resume point never moves back over any history |
| SyncProgress.RunsCatchUp | worker/leaderboard-sync.ts:361-408 | with a fixed tip each completed forward run is at least one ledger of progress, whatever fails in between, and the first scanned ledger stays the same |
| SyncProgress.CaughtUp | worker/leaderboard-sync.ts:361-446 | after enough completed runs the frontier is the tip and every event from the first scanned ledger, as it was before, is in the table |
| SyncProgress.FreshRunsCatchUp | worker/leaderboard-sync.ts:298-446 | a fresh database is on an opaque cursor after its first completed run and gains a ledger with every other one |
| SyncProgress.CaughtUpFromFresh | worker/leaderboard-sync.ts:298-446 | from a fresh database, as many completed runs as the chain has ledgers from the first scanned one on reach the tip with every event from there in the table |
| SyncProgress.StepCounted | worker/leaderboard-sync.ts:410-417 | every step keeps total plus missed rows equal to the number of rows once a run has completed |
| SyncProgress.TotalOfRun | worker/leaderboard-sync.ts:410-417 | in any state a completed run adds what it inserted, or recounts if there is no total, no cursor and no time of a former run |
| SyncProgress.TotalsExact | worker/leaderboard-sync.ts:410-417 | in every reachable state the total is at most the number of rows, and after a completed run equal exactly when no later failed run inserted a row |
| LedgerCursors.RunOfLedgerPages | worker/leaderboard-sync.ts:340-408 | a run from a ledger cursor starts a replay window behind its anchor and ends at most five pages further |
| LedgerCursors.PassesExactly | worker/leaderboard-sync.ts:340-408 | some run on pages of at most a given span passes its anchor, the highest ledger or else the cursor, exactly when five pages reach beyond it from the start of the window |
| LedgerCursors.MovesBackExactly | worker/leaderboard-sync.ts:340-446 | exactly when a run from a ledger cursor can move the frontier back, and when it can keep or raise it |
| LedgerCursors.MovesBackExample | worker/leaderboard-sync.ts:340-446 | a run from ledger 9500 takes the frontier from 9499 to 9000 or, with no highest ledger, below 2501 |
| LedgerCursors.CatchupStays | worker/leaderboard-sync.ts:362-433 | a catch-up run does not raise the highest ledger unless its first page is full |
| LedgerCursors.FullCatchupRaises | worker/leaderboard-sync.ts:362-408 | after a full first page a catch-up run can read behind its requested end and raise the highest ledger |
| LedgerCursors.LedgerCursorStalls | worker/leaderboard-sync.ts:340-349 | when five pages cannot pass the highest ledger, no history of forward runs and of catch-up runs without full pages raises it |
| LedgerCursors.LedgerAnchorBounded | worker/leaderboard-sync.ts:340-349 | with or without a highest ledger, no history gets beyond a ledger whose replay window five pages cannot span |
| MidLedger.StaysLost | worker/leaderboard-sync.ts:315-334 | an event behind the frontier of an opaque cursor that is not in the table stays missing over all later forward runs |
| MidLedger.PageEndingInsideALedger | worker/leaderboard-sync.ts:315-334 | a page that ends inside a ledger puts an event behind the frontier, and no later forward run brings it |
| Scan.RangeBounds | worker/leaderboard-ingestion.ts:280-323 | a page starts at the requested ledger, else at its cursor, else 4096 ledgers below the tip; without a requested end it ends at its limit or the tip, with one it ends there |
| Scan.ExtractScoreEvents | worker/leaderboard-ingestion.ts:706-818 | the score events of the file inside the range, in order, and the number of inspected events |
| Scan.ScanFiles | worker/leaderboard-ingestion.ts:1694-1769 | files are read once each in ascending order, up to a broken file, the end of the range, or the first time too many files in a row are missing; the result is what those files hold, and the cursor is the file after them |
| Scan.ScanUnique | worker/leaderboard-ingestion.ts:1694-1769 | the files alone decide where a scan ends and what it returns |
| Scan.PageExact | worker/leaderboard-ingestion.ts:713-717 | for every ledger of the range below the cursor exactly what the files hold, and nothing for other ledgers |
| Scan.FullScanCursor | worker/leaderboard-ingestion.ts:1694-1758 | the cursor of a scan that read its whole range is the start of the next file |
| Scan.CursorAligned | worker/leaderboard-ingestion.ts:1757-1763 | the cursor is the ledger after the range exactly when the range ends with a file |
| Scan.ChainExact | worker/leaderboard-ingestion.ts:1694-1769 | scans chained through their returned cursors return the events of each ledger that one of them reached once and of no other ledger, with or without missing files |
| Scan.ChainGapless | worker/leaderboard-ingestion.ts:1694-1769 | chained scans that read their whole ranges leave out no ledger exactly when every page but the last ends with a file; always so with one ledger per file |
| Scan.GapExample | worker/leaderboard-ingestion.ts:293-317 | with 64 ledgers per file and the default limit, ledger 202 is never read |
| LakePages.LakePageExact | worker/leaderboard-ingestion.ts:1694-1769 | a complete scan page meets the protocol's assumption exactly when no event lies between its range and its cursor and the cursor passes closed ledgers |
| LakePages.LakeIsLedgerPages | worker/leaderboard-ingestion.ts:1664-1769 | the pages of the data lake end at a ledger cursor and span at most the page limit and the rest of a file; its catch-up pages show nothing behind the requested end |
| LakePages.DefaultLakeCannotPass | worker/leaderboard-sync.ts:340-349 | with the default limit and files of up to 1401 ledgers five such pages cannot pass a highest ledger from 8001 on |
| ObjectKey.Hex8Order | worker/leaderboard-ingestion.ts:907-914 | padded hexadecimal numbers have eight digits and sort as numbers |
| ObjectKey.FilesInPartitions | worker/leaderboard-ingestion.ts:898-903 | a file lies in one partition, and partitions keep the order of files |
| ObjectKey.KeyOrder | worker/leaderboard-ingestion.ts:889-921 | two ledgers have one key exactly when they share a file, and a later file has the smaller key |
| ObjectKey.KeyNames | worker/leaderboard-ingestion.ts:889-921 | read back as numbers, a key names the first and last ledger of the file, and of its folder if there are folders, and the ledger lies between them |
| Xdr.DecodeEntry | worker/leaderboard-ingestion.ts:573-637 | an entry takes at least 16 bytes and passes the end of the buffer by padding only |
| Xdr.EntryAligned | worker/leaderboard-ingestion.ts:553-556 | every entry starts on a multiple of four bytes |
| Xdr.Reader.ReadU32 | worker/leaderboard-ingestion.ts:539-544 | a big-endian word, or nothing without moving when fewer than four bytes are left |
| Xdr.Reader.ReadBytes | worker/leaderboard-ingestion.ts:546-551 | the next n bytes, or nothing without moving |
| Xdr.Reader.ReadValue | worker/leaderboard-ingestion.ts:590-637 | the value of an entry, corrupt input and unknown types |
| Xdr.ParseScValMap | worker/leaderboard-ingestion.ts:512-641 | the loop over a shared position returns what the decoder function returns |
| XdrRoundTrip.RoundTrip | worker/leaderboard-ingestion.ts:536-641 | decoding an encoded map of up to 64 entries gives its fields, whatever bytes follow |
| XdrRoundTrip.LastKeyWins | worker/leaderboard-ingestion.ts:597-631 | the last entry of a key decides its value |
| XdrRoundTrip.ProtoDropped | worker/leaderboard-ingestion.ts:597-631 | the one name that a plain object does not take as a property never becomes a field |
| XdrRoundTrip.Truncation | worker/leaderboard-ingestion.ts:539-556 | every proper prefix that lacks more than trailing padding gives nothing, never a partial map |
| XdrRoundTrip.UnknownType | worker/leaderboard-ingestion.ts:632-637 | a value of unknown type gives exactly the fields before it |
| XdrRoundTrip.DecodedIsLaidOut | worker/leaderboard-ingestion.ts:558-640 | a buffer that decodes holds a map header and entries that make up the result, all of them or those before an unknown type |
| Crc.BuildTable | worker/tape.ts:86-100 | each table word is eight steps of the shift register |
| Crc.ShiftLinear | worker/tape.ts:93 | the shift register is linear over GF(2) |
| Crc.ShiftByte | worker/tape.ts:80 | eight steps are one table word xor the upper bytes moved down |
| Crc.TableStep | worker/tape.ts:80 | one look-up is the bit-by-bit register over the eight bits of a byte |
| Crc.Crc32 | worker/tape.ts:76-84 | for every prefix of every message the table gives the bit-by-bit CRC-32 |
| Crc.BurstDetected | worker/tape.ts:76-84 | different messages that differ only inside 32 consecutive bits leave different registers |
| Crc.ByteBurstDetected | worker/tape.ts:76-84 | different messages that differ only inside four consecutive bytes have different checksums |
| Crc.KnownValues | worker/tape.ts:76-100 | the table word at 128 is the polynomial, and four bytes of ones have the checksum of all ones |
| Tape.BodyLengthExact | worker/tape.ts:44 | two frames per byte below 2^31 - 1, empty for 2^32 - 1, negative between |
| Tape.FrameCountsOfTapes | worker/tape.ts:43-49 | which frame counts tapes have, and their body lengths |
| Tape.ParseAndValidateTape | worker/tape.ts:10-74 | accepts exactly the encodings of tapes within the size limit, returns the encoded fields, and every refusal names a true reason |
| Tape.HeaderLayout | worker/tape.ts:24-43 | the eight fixed bytes of a header, then seed and frame count |
| Tape.DecodingUnique | worker/tape.ts:42-74 | accepted bytes encode one tape only |
| Tape.AlterationRefused | worker/tape.ts:55-64 | an accepted tape altered inside four consecutive bytes of header or body is refused |
| Tape.ScoreNotCovered | worker/tape.ts:52-60 | replacing the final score of an accepted tape is accepted for every positive score |
| ReplayHash.Set | worker/replay-hash.ts:35-40 | copying into the buffer changes just the copied range |
| ReplayHash.BuildPreimage | worker/replay-hash.ts:31-40 | the buffer holds domain, version, rules tag, seed, frame count and inputs |
| ReplayHash.PreimageLayout | worker/replay-hash.ts:31-40 | the domain text, the version, the rules tag, and the seed, frame count and inputs at their offsets |
| ReplayHash.ComputeReplayIdentity | worker/replay-hash.ts:23-48 | the identity of the accepted tape, and none for other bytes |
| ReplayHash.SameReplay | worker/replay-hash.ts:28-40 | two accepted tapes hash the same bytes exactly when they differ in the final score at most; then their checksums are equal |
| Ranking.ExtractLeaderboardRuns | worker/leaderboard.ts:100-129 | runs of the events with a valid time and a positive score, in order |
| RankingLaws.RunsOneByOne | worker/leaderboard.ts:100-129 | events give runs one by one with their columns; those without a valid time or a positive score give none |
| Ranking.ComparisonsAgree | worker/leaderboard.ts:52-78 | the comparison that keeps the best run and the one that sorts go by one order |
| Ranking.BestByClaimant | worker/leaderboard.ts:155-169 | the one-pass map holds exactly the best visible run of every claimant |
| Ranking.ComputeLeaderboard | worker/leaderboard.ts:131-194 | a sorted enumeration of the best runs, and the page, next offset and own entry cut from it |
| Ranking.RankingUnique | worker/leaderboard.ts:171-174 | a set of runs has one sorted enumeration |
| RankingLaws.OrderIrrelevant | worker/leaderboard.ts:155-174 | the ranking does not depend on the order of the runs |
| RankingLaws.WindowsNest | worker/leaderboard.ts:26-36 | a window shows exactly the valid runs of at most its age, in milliseconds, so the windows nest; a run an hour old is in the day and not in the ten minutes |
| RankingLaws.EachClaimantOnce | worker/leaderboard.ts:155-174 | every claimant with a visible run is ranked once |
| RankingLaws.RankingRefinesQuery | worker/leaderboard-store.ts:1339-1377 | the computed ranking is the windowed query restricted to positive scores, with the same rank numbers and the columns of the rows; totals agree exactly when all best rows are positive |
| Board.TableIsRecords | worker/leaderboard-store.ts:1339-1377 | after a complete write the query reads the last record of every id, and the former rows of other ids |
| Board.QueryRanksRecords | worker/leaderboard-store.ts:1339-1377 | the windowed query over the table of a complete write ranks as the leaderboard computed from the last record of every id, with the columns of that record |
| RankingLaws.OneMoreRun | worker/leaderboard.ts:155-174 | one more run moves every other claimant's entry by zero or one place and never worsens its own claimant |
| PageWalk.ServedPage | worker/leaderboard.ts:153-181 | the pages of the walk are the served pages |
| PageWalk.PageBounds | worker/leaderboard.ts:149-193 | 25 entries unless asked for 1 to 100, an offset of at most 10000, and the entries of the ranking from there on with their ranks |
| PageWalk.WalkExact | worker/leaderboard.ts:149-181 | following next offsets shows the whole ranking and ends exactly when the last page starts within the largest offset |
| PageWalk.WalkOfTenThousand | worker/leaderboard.ts:149-193 | for up to 10000 players the pages join to the whole ranking with ranks 1 to n |
| Recovery.JobClaimTxHashes | worker/replay-recovery.ts:39-52 | exactly the hashes under which a job was claimed |
| Recovery.FindExactMatchingProofJob | worker/replay-recovery.ts:111-120 | the freshest job with equal seed and score that claimed the transaction, if there is one |
| Recovery.BestMatchExact | worker/replay-recovery.ts:122-155 | without an exact match, the only succeeded candidate, or the only candidate if none succeeded, exactly when there is one |
| Backfill.IndexExact | worker/leaderboard-sync.ts:873-906 | with one index entry per hash, an event is mapped through the index exactly when an entry of its claimant, transaction, seed and score names a job with a tape |
| Backfill.MatchSound | worker/leaderboard-sync.ts:1073-1110 | a match found page by page, or by elimination over all jobs, is sound |
| Backfill.SoundJoins | worker/replay-recovery.ts:54-155 | a sound mapping joins an index entry of equal claimant, transaction, seed and score, or a job of the claimant with equal seed and score that claimed the transaction or is the only one to be |
| Backfill.FoundOrLeft | worker/leaderboard-sync.ts:867-967 | every event is either found a job with a tape or left, and left exactly when this way finds none |
| Backfill.WrittenBounds | worker/leaderboard-sync.ts:911-965 | written mappings are among those tried, and all of them exactly when no write fails |
| Backfill.ListingEnd | worker/leaderboard-sync.ts:1044-1090 | when listing stops, the offset is the number of jobs on the pages up to the limit, or all jobs |
| Backfill.UnmatchedExact | worker/leaderboard-sync.ts:1044-1110 | for an event that is left, whichever listed job played and claimed it, one at least as fresh has no tape; and after a complete listing without a claim a job that is alone has none |
| Backfill.Pass.ApplyClaimIndexMatches | worker/leaderboard-sync.ts:867-925 | tries exactly the mappings that the index gives, in order, and returns exactly the other events |
| Backfill.Pass.ApplyMatches | worker/leaderboard-sync.ts:927-967 | the same for the mappings that the jobs give |
| Backfill.Pass.ClaimantPass | worker/leaderboard-sync.ts:1044-1110 | every event is settled or returned once, and a returned one has no exact match in the listed jobs, nor any best match if the listing was complete |
| Backfill.GroupByClaimant | worker/leaderboard-sync.ts:1033-1042 | groups hold each event once, under its claimant |
| Backfill.LoadUnmapped | worker/leaderboard-sync.ts:996-1013 | the unmapped rows up to the batch limit |
| Backfill.BackfillProofTapeMappings | worker/leaderboard-sync.ts:969-1127 | each unmapped event is tried once, given up once after a failed listing, or left; a left one has no job in the index or the listed jobs; every mapping joins equal seed and score; the counters add up |

## Left out

- HTTP requests, timeouts, authentication, RPC endpoints and their fallback order, and recovery from expired cursors: replaced by an abstract source. The data-lake fallback ignores an opaque cursor; that combination is outside the source assumption.
- Two sources give an event different ids (worker/leaderboard-ingestion.ts:776 and the RPC id); the model assumes one id per event.
- D1 and R2 bindings, schema statements and SQL text: tables are maps, a batch is one step, the existence of a tape is a predicate.
- Empty event ids: sources never produce them, and a stored row with one would be counted as new every time.
- The FNV-1a hash of a row, JSON text, date parsing and locale comparison: parameters, integer times and one order of ids.
- SHA-256, StrKey, zstd, base64 and the full XDR library: the models start from decoded bytes, and account, contract and hexadecimal texts stand for their bytes.
- The tape mapping and stale pruning passes of a scheduled tick, and the two timestamps they store: they write back the state of the last run.
- `pruneStaleProofTapeMappings`, profiles, credentials, routing and the Soroban contract.
- Ranking.ComputeLeaderboard: the library sort is an insertion sort, and event ids are their places in one order of ids.
- ReplayHash.ComputeReplayIdentity: does not model a caller that passes metadata of its own, because such metadata need not belong to the tape.
- Backfill.BackfillProofTapeMappings: the coordinator is assumed to list slices of a fixed list of jobs; the cache of tape look-ups is not modelled, because the look-ups do not change during a pass.
- Sync.RunLeaderboardSync: the source name of a request and non-numeric ledger bounds are not modelled.
