# valkey_fdw, modelled and proved

valkey_fdw is a PostgreSQL foreign data wrapper over Valkey. A transaction's writes are buffered, folded into one plan per key,
encoded as one EVALSHA of a fixed Lua program, and applied at COMMIT; its reads page through a keyspace, pipeline the value fetches
and overlay the transaction's own writes. This project is a Dafny model of that path and proofs about it.

- **Write path.** `WriteOp`, `Fold` and `Ledger` are the buffered rows and the ledger; `Encode` and `Encoder` are the argument vector;
  `Script` and `Server` are the Lua program; `Keyspace` and `Cells` are what its commands do to Valkey, key by key. `Rows` and `Outcomes`
  say what a row, a log and a commit leave in the keyspace without naming a step or a plan, `Tables` and `Refusals` which check a refusal
  names, `WireFormat` which vectors are well formed, and `Duplicates` which rows are refused; the code is proved to do what they say.
  `Regroup`, `Commit`, `Renames`, `MovedLogs`, `Traces`, `Assumptions`, `NoOverwrite`, `KeysetInserts`, `SetInserts`, `StringLogs`,
  `MemberLogs`, `ListDemand`, `Preconditions` and `Relids` hold further theorems, and `CommitLimits` the inputs where a guarantee stops.
- **Commit protocol.** `ScriptReply`, `Flush` and `FlushRetries`: the retry loop against a server that is only assumed honest about what it
  refuses; `Delivery` joins it to the program, for what a COMMIT leaves in the keyspace.
- **Transaction state.** `Buffer`, `Overlay`, `Savepoints`: the log, its index and the ledger kept in step through savepoints.
- **Reads.** `ReadScan` (reading one's own writes), `Pipeline` (replies paired with commands), `ClusterMap` and `ClusterScan`
  (fan-out and redirects), `Search` (top-k by over-fetching).
- **Kernels.** `Slot`, `SlotCheck`, `Score`, `Like`.

Imperative code is modelled imperatively: the ledger, buffer, overlay, batch, scan and cluster state are classes with the source's own
fields, each loop is a loop with its invariants, and each method's contract ties it to a function or states the property outright.
A byte is a `char` up to 0xFF, so a NUL is an ordinary byte; where the source uses a C string function, the model uses `CStr`, the bytes
before the first NUL. A 16-bit register is its sixteen bits. The server, its answers, successive cluster maps, memory past a short copy
and what the server parses as a number are parameters, and every theorem is over all of them.

Results that are not what the source's comments promise, each with its witness and its exact condition:

- An error raised before phase SENT means nothing was written exactly when `pipeline_batch` is at least 3
  (`Flush.CleanErrorsNeedRoomForBoth`): with 1 or 2, queueing the EVALSHA pushes it first (`Flush.ShortPipelineLies`).
- A commit that passes its checks is applied whole exactly when the commands aimed at each keyset, in plan order, fit what they find there
  (`Commit.CommitIsExact`). Over keysets holding sets or nothing this is a matter of the log alone (`Commit.CommitIsAllOrNothing`), and it
  can fail only for a keyset that is also the key of a table of another type (`CommitLimits.StringKeysetIsAppliedInPart`).
- A string log with renames that passes its checks is applied whole, in plan order, exactly when each rename, in that order, finds its source
  live (`Renames.RenamesAreExact`); a key moved away, back and away again does not (`CommitLimits.RepeatedRenameIsAppliedInPart`).
- Plan order is not always log order once keys move: setting a, moving it to b and then moving c to a is accepted, passes, is answered OK and
  loses a row (`CommitLimits.RefilledKeyLosesARow`). For string logs the plans leave what the log in order leaves, from every passing
  keyspace, exactly when both leave every key the same origin (`Traces.OrderIsKeptExactly`, and with the reply
  `Traces.MovesAreDeliveredExactly`). For every table type it is enough that rows move only to keys not written before and that a key moved
  from is not written again (`MovedLogs.MovedRegroupingPreservesMeaning`).
- A string INSERT replaces something exactly when some row is still entered in the keyset of that name that the log has built since the key was
  last written (`KeysetInserts.StringInsertIsFreshExactly`, `CommitLimits.InsertOverAKeyset`); a set INSERT finds its member there exactly
  when the row of that name is still entered in the keyset since a row of the set last named it (`SetInserts.SetInsertIsFreshExactly`,
  `CommitLimits.SetInsertFindsItsMember`).
- src/vfdw_ledger.c:394-396 calls deleting and re-inserting a key in one transaction legal. For a hash row it is refused when the INSERT
  names a field that an earlier row of the transaction gave a value, because deleting the key leaves its member entries as they were:
  a hash log legal row by row is refused exactly then (`Duplicates.LegalHashLogIsRefusedExactly`, `Duplicates.RowPutBackIsRefused`).
- A key redirected by the cluster is asked for again under its own name exactly when it has no NUL before its last byte
  (`ClusterScan.RecalledExactlyWhenWhole`), because it is kept with a C string copy.
- The slot check skips the empty key, which hashes to slot 0, so an accepted unit is all in its slot exactly when that slot is 0 or nothing
  writes the empty key (`SlotCheck.AcceptedUnitIsOneSlot`, `SlotCheck.EmptyKeyEscapesTheCheck`).
- A search whose filter is the query's own clause makes no second pass, so it gives the k nearest exactly when everything among the first k
  entries can be read or nothing beyond them can (`Search.FirstPassIsEnoughExactly`, in the contract of `Search.NearestQualifying`); an
  unreadable entry followed by a readable one, with k = 1, gives nothing (`Search.UnreadableNearestIsMissed`).
- README.md:319-320 of the repository's own documentation exempts lists from the key-absent precondition; the ledger demands it of every first INSERT
  (src/vfdw_ledger.c:373-379). The model follows the code.

## Model

| member | source | states |
|---|---|---|
| Fold.NoteKeepsKeysDistinct | src/vfdw_ledger.c:242-287 | Folding any operation, renames included, keeps one plan per key |
| Fold.FoldKeepsKeysDistinct | src/vfdw_ledger.c:512-569 | The plans of every accepted log have distinct keys, which is what the key table relies on |
| Ledger.NoteFields | src/vfdw_ledger_fold.c:64-120 | The loop over a row's fields folds them in order and stops at the first duplicate; what the fields then hold is Rows.NamedFieldHolds, and which row is refused Duplicates.RowIsRefusedExactly |
| Ledger.NoteTtls | src/vfdw_ledger_fold.c:40-62 | The loop over expiries appends one HPEXPIRE or HPERSIST per column, in order; what the fields' expiries then are is Rows.NamedExpiryHolds |
| Ledger.NotePacked | src/vfdw_ledger_fold.c:310-363 | The loop over a packed array gives DEL and then one step per element, or per pair for a hash; other types are refused; what the key then holds is Rows.PackedRowLeaves |
| Ledger.NoteBody | src/vfdw_ledger.c:490-569 | An operation's shape is folded, or its key deleted, exactly as the specification fold says, refusals included |
| Ledger.WriteLedger.FindOrCreate | src/vfdw_ledger.c:242-287 | A key's plan is found through the index or appended with TYPE_OK first; the index stays consistent |
| Ledger.WriteLedger.FoldRename | src/vfdw_ledger.c:432-457 | A rename adds RENAME and keyset moves to the target's plan and gives the source a plan of its own |
| Ledger.WriteLedger.Note | src/vfdw_ledger.c:512-569 | Noting an operation leaves exactly the folded state, or a refusal, for every operation |
| Ledger.WriteLedger.Rebuild | src/vfdw_ledger.c:571-612 | Rebuilding from a log leaves the fold of that log, or its first refusal |
| Ledger.RefusalSticks | src/vfdw_ledger.h:110-120 | A log whose prefix is refused is refused: acceptance is closed under prefixes |
| Duplicates.EntriesAreTheLastWord | src/vfdw_ledger.c:289-319 | After any accepted log a field or member has an entry exactly when a row named it, and the entry says what the last such row left |
| Duplicates.RowIsRefusedExactly | src/vfdw_ledger.c:389-415 | A row is refused if and only if it repeats a standing string key, a field or member last left there, or cannot be written; and as which of these, naming the first duplicate |
| Duplicates.LogIsRefusedExactly | src/vfdw_ledger.c:512-569 | For every rename-free, type-consistent log of any table types, the ledger refuses it if and only if some row over those before it is a duplicate or unwritable |
| Duplicates.LegalHashLogIsRefusedExactly | src/vfdw_ledger_fold.c:101-103 | A hash log legal row by row is refused if and only if an INSERT names a field an earlier row gave a value, in a key deleted since |
| Duplicates.RowPutBackIsRefused | src/vfdw_ledger.c:489-510 | A concrete legal log, INSERT, DELETE and INSERT again of one hash row, that is refused |
| Relids.RelidsAreExact | src/vfdw_ledger.c:213-232 | For every accepted log, renames included, each plan lists, each once, exactly the tables whose rows were under its key or moved from it |
| Preconditions.FirstTouchDecides | src/vfdw_ledger.c:349-387 | For every accepted log, renames included, a plan's second check and its require code are what the first row to touch its key takes: absent if made by INSERT or moved to, there otherwise |
| Preconditions.PassingKeysAreAsTaken | src/vfdw_ledger.c:349-387 | In a keyspace that passes, every key a row is under or moved from is there exactly as the first row to touch it takes it to be |
| Keyspace.EffectsCommute | src/vfdw_script.c:141-159 | Two commands of different keys' plans commute on every keyspace, keyset edits of one set included |
| Keyspace.RunsCommute | src/vfdw_script.c:161-174 | Whole runs of commands of two keys' plans commute |
| Regroup.NoteGrowsOnePlan | src/vfdw_ledger.c:512-569 | An operation appends its own commands to its own key's plan and touches no other; what the ledger holds decides only checks and refusals |
| Regroup.MovePast | src/vfdw_script.c:161-174 | Commands appended to any plan may as well run after every plan |
| Regroup.RegroupingPreservesMeaning | src/vfdw_ledger.c:512-569 | For every rename-free, type-consistent log with keysets apart from data keys, running plans key by key equals running the log in order, from every keyspace |
| Rows.NamedFieldHolds | src/vfdw_ledger_fold.c:64-120 | After a row's fields, from any hash or none, a field last named with data holds that data without an expiry, one last named NULL is absent, and an unnamed one is as it was |
| Rows.NamedExpiryHolds | src/vfdw_ledger_fold.c:40-62 | After a row's fields and expiries, a field that is there has the expiry last named for it, or none for a NULL |
| Rows.MemberRowLeaves | src/vfdw_ledger_fold.c:186-240 | A set or zset row takes its member out, or takes the old one out and puts the new one in, with the row's score or 0; every other member and score stays |
| Rows.ListRowLeaves | src/vfdw_ledger_fold.c:246-285 | A list row appends its value, or removes the first occurrence, and the rest keeps its order |
| Rows.PackedRowLeaves | src/vfdw_ledger_fold.c:310-363 | A packed row's key holds the packed array and nothing it held before: a list in the array's order, a set of its elements, a hash of its pairs with the last value for each name |
| Rows.ShapeLeaves | src/vfdw_ledger.c:512-569 | For every table type a row's commands leave its cell as the row says |
| Rows.RowDecides | src/vfdw_ledger.c:512-569 | What a row says determines the cell: from one cell there is one outcome |
| Outcomes.RowIsDone | src/vfdw_ledger.c:432-569 | One row's commands leave every key of the keyspace as the row says: its own cell, a moved row's old key, its keyset, and every other key untouched |
| Outcomes.RowsDecide | src/vfdw_ledger.c:512-569 | From one keyspace the rows of a log lead to exactly one keyspace |
| Outcomes.CommitLeavesTheRows | src/vfdw_script.c:100-176 | For every accepted rename-free, type-consistent log with keysets apart: a commit that passes is applied and leaves the keyspace the rows lead to, and a refused one leaves it alone |
| Outcomes.MovesLeaveTheRows | src/vfdw_ledger.c:432-457 | The same for logs that move rows to unwritten keys, when applied: contents under the new key, the old key gone, the keysets listing the new one |
| MovedLogs.MovedRegroupingPreservesMeaning | src/vfdw_ledger.c:432-569 | With renames: for every accepted type-consistent log that moves rows only to keys not written before, writes no key a row was moved from and keeps keysets apart from both, running plans key by key equals running the log, renames included, in order, from every keyspace |
| MovedLogs.NothingMoved | src/vfdw_ledger.c:418-424 | Without renames the run of a log that may move keys is the plain run of the log |
| Traces.RunTells | src/vfdw_script.c:141-174 | What SET, DEL and RENAME leave under each key is the start value or written text that its trace names |
| Traces.OrderIsKeptExactly | src/vfdw_ledger.c:432-569 | For every accepted string log, renames of any pattern: plans and log in order agree from every passing keyspace if and only if they leave every key the same origin |
| Traces.MovesAreDeliveredExactly | src/vfdw_script.c:100-176 | For every accepted string log: every passing commit is answered OK and leaves the log in order if and only if each rename finds its source live and the order is kept |
| Server.ReadSteps | src/vfdw_script.c:77-92 | The decoder's loop reads a counted list of steps, or reports that the vector is too short or not a number |
| Server.ReadPlan | src/vfdw_script.c:65-95 | One plan is decoded, with its header's numbers and its key index against KEYS checked first |
| Server.ReadPlans | src/vfdw_script.c:65-95 | The plans are decoded in order, stopping at the first malformed one |
| Server.ReadProgram | src/vfdw_script.c:58-96 | The whole vector is decoded, or the BADPROTO exit the program takes is returned, trailing words included |
| Server.Valkey.Check | src/vfdw_script.c:100-139 | Phase 1 writes nothing, lets a program through when every kind and check is satisfied, and otherwise names the first plan and check that is not: CONFLICT for something there that had to be absent, MISSING for something absent that had to be there, WRONGTYPE for another kind |
| Server.Valkey.Write | src/vfdw_script.c:161-174 | Phase 2 runs every action in order and stops at the first the server refuses |
| Server.Valkey.EvalSha | src/vfdw_script.c:100-176 | The program's reply and keyspace; every reply but OK and INTERNAL leaves the keyspace as it was |
| Tables.CheckMeans | src/vfdw_script.c:101-121 | The CHECK table by number: what each looks for, and CONFLICT where it had to be absent, MISSING where it had to be there |
| Tables.Phase1NamesTheFirst | src/vfdw_script.c:123-139 | Phase 1 is silent when everything is satisfied and otherwise names the first plan and check that is not, as what it is |
| Tables.ActionNumbers | src/vfdw_script.c:143-159 | The ACTION table by number: the verb and the argument order of each |
| Refusals.FlushNamesTheFirst | src/vfdw_script.c:100-139 | For every folded ledger a refused flush changes nothing and names the first check that fails in the keyspace, with its own reply |
| Refusals.LogIsRefusedByTheFirst | src/vfdw_script.c:100-139 | For every accepted rename-free, type-consistent log the commit is refused if and only if some check is not satisfied, with CONFLICT, MISSING or WRONGTYPE as the first of them deserves |
| Encode.PlanKeysLead | src/vfdw_script_encode.c:245-299 | With distinct plan keys, plan i's key is KEYS[i] |
| Encode.DeclareCovers | src/vfdw_script_encode.c:174-196 | Every key any step names is declared in KEYS |
| Encode.WireResolves | src/vfdw_script_encode.c:198-243 | A key index the encoder emits lies in KEYS and resolves to the bytes it replaced |
| Encode.RoundTrip | src/vfdw_script_encode.c:198-299 | For every ledger with distinct keys the program decodes exactly its plans, checks and actions, with no BADPROTO exit |
| WireFormat.DecodesExactlyTheWellFormed | src/vfdw_script.c:58-96 | The program decodes a vector into given plans if and only if the vector spells them, to its last element |
| WireFormat.KeyTableIsExact | src/vfdw_script_encode.c:174-196 | KEYS lists every plan's key and every key a step names, each once, and nothing else |
| WireFormat.HeadersAreRead | src/vfdw_script_encode.c:245-299 | The program reads each plan's key, type and precondition as the numbers the format gives them |
| Decimal.ReadsExactlyTheNumber | src/vfdw_script.c:66-70 | A text reads as a number if and only if it is that number's decimal digits, with any zeros in front |
| Encoder.KeyTable.Intern | src/vfdw_script_encode.c:104-137 | A key's index, appended on first sight; the table stays free of repeats |
| Encoder.KeyTable.DeclareSteps | src/vfdw_script_encode.c:174-196 | Every key the steps name is interned, in order |
| Encoder.KeyTable.EmitSteps | src/vfdw_script_encode.c:198-243 | The emitted words are the steps' wire form |
| Encoder.EncodeProgram | src/vfdw_script_encode.c:245-299 | The mutating encoder produces the KEYS and ARGV of which the round trip is proved |
| Commit.Phase1Decides | src/vfdw_script.c:100-139 | Phase 1 lets a program through exactly when every check of every plan holds; its refusals are CONFLICT, MISSING or WRONGTYPE |
| Cells.CellOf | src/vfdw_script.c:141-174 | What a key holds after any rename-free run of commands is what its own share of them makes of it |
| Cells.CleanWhenSmooth | src/vfdw_script.c:141-174 | The server refuses no command of a run if and only if every key's share of it is smooth |
| Commit.Phase2Runs | src/vfdw_script.c:161-176 | Phase 2 answers OK n if and only if the server refuses none of the plans' commands, renames included, and has then run them all; otherwise INTERNAL names the first command refused and the keyspace is what the commands before it left |
| Commit.FlushedRuns | src/vfdw_script.c:100-176 | For every folded ledger: refused with nothing written, applied whole, or stopped at the first refused command, with the exact condition and keyspace of each |
| Commit.PassesIsSound | src/vfdw_ledger.c:276-283 | Because every plan carries TYPE_OK, a keyspace that passes has each written key absent or of its table's type |
| Commit.EveryKeyHasItsPlan | src/vfdw_ledger.c:242-287 | Every key a log writes has a plan of the log's type for it, and every plan has such a key |
| Commit.CommitIsExact | src/vfdw_script.c:100-176 | For every accepted rename-free, type-consistent log with numbers the server parses and every keyspace: CONFLICT, MISSING or WRONGTYPE with nothing written, or OK n with everything written if and only if the commands aimed at each keyset fit, or INTERNAL naming the first refused command, with what the commands before it wrote |
| Commit.CommitIsAllOrNothing | src/vfdw_script.c:100-176 | Over keysets holding sets or nothing, a commit that fails a check writes nothing, and one that passes is applied whole, the plans' commands and with keysets apart the log in order, if and only if the keysets take turns, which the log alone decides; otherwise INTERNAL |
| Commit.SetKeysetsTakeTurns | src/vfdw_ledger.c:338-347 | Keysets that are no data keys, or only set tables' keys, always take turns, so INTERNAL is then unreachable |
| Renames.KeysHavePlans | src/vfdw_ledger.c:432-457 | Every key a row is under or is moved from has a plan, so its presence is checked in phase 1 |
| Renames.PassingFixesTheStart | src/vfdw_ledger.c:358-387 | In a keyspace that passes, the written keys that are there are exactly those whose plan requires KEY_PRESENT |
| Renames.RenamesAreExact | src/vfdw_ledger.c:432-457 | For every accepted string log without keysets, renames of any pattern: a commit that passes is applied whole, in plan order, if and only if each rename, in that order, finds its source live; otherwise it stops at the first refused command |
| Renames.LiveRenamesAreApplied | src/vfdw_ledger.c:432-457 | For every table type, moved keys keeping theirs: a commit that passes and whose renames all find their source surely live is applied whole |
| CommitLimits.StringKeysetIsAppliedInPart | src/vfdw_ledger.c:338-347 | A concrete accepted log whose keyset is a string key passes phase 1, writes two keys and answers INTERNAL; its keysets do not take turns |
| CommitLimits.RepeatedRenameIsAppliedInPart | src/vfdw_ledger.c:432-457 | A concrete accepted log that moves a key away, back and away again passes phase 1, renames once and answers INTERNAL; its second rename finds no live source |
| CommitLimits.RefilledKeyLosesARow | src/vfdw_ledger.c:432-457 | A concrete accepted log that passes every check, is answered OK 3 and leaves one row where the log in order leaves two |
| CommitLimits.InsertOverAKeyset | src/vfdw_ledger.c:338-347 | A concrete accepted log passing every check in which an INSERT replaces the keyset an earlier INSERT made |
| CommitLimits.SetInsertFindsItsMember | src/vfdw_ledger.c:338-347 | A concrete accepted log passing every check in which a set INSERT finds its member already there, as a keyset entry |
| Assumptions.FieldsAsk | src/vfdw_ledger_fold.c:64-120 | The checks a row's fields add hold of a keyspace exactly when each field met for the first time, in a key the log did not make, is as the row expects |
| Assumptions.MemberAsks | src/vfdw_ledger_fold.c:147-184 | The same for the set or zset member a row had before |
| Assumptions.ListAsks | src/vfdw_ledger_fold.c:246-285 | The check a list removal adds asks for exactly the demand it raises |
| Assumptions.NoteAsks | src/vfdw_ledger.c:358-387 | Noting any operation adds exactly its own assumptions to what phase 1 asks |
| Assumptions.PhaseOneAsksWhatTheRowsAssume | src/vfdw_ledger.c:349-569 | For every accepted rename-free, type-consistent log and every keyspace, all checks hold if and only if every row's assumptions do: its key's presence at first touch, its field's or member's, a list's occurrences, the types |
| Assumptions.AppliedWhenTheRowsHold | src/vfdw_script.c:100-176 | Nothing is written unless every row's assumptions hold of the keyspace; when they do, the commit is applied if and only if the keysets take turns |
| NoOverwrite.FieldKeepsInv | src/vfdw_ledger_fold.c:64-120 | Folding a field keeps the entry's record of presence true of the running keyspace, and an inserted field is absent |
| NoOverwrite.MemberKeepsInv | src/vfdw_ledger_fold.c:147-240 | The same for set and zset members, member renames included |
| NoOverwrite.NoteKeepsKeyInv | src/vfdw_ledger.c:358-415 | Every note keeps what the ledger says of a key, its state and its entries, true of the keyspace the log so far produces |
| NoOverwrite.InsertsNeverOverwrite | src/vfdw_ledger.c:358-415 | In every accepted log without renames, run in order from a keyspace passing phase 1, an INSERT of a mapped row finds absent the string key, non-null field or member it writes, unless an earlier operation edited that very key as a keyset |
| KeysetInserts.ClosedKeyIsItsKeyset | src/vfdw_ledger.c:338-347 | A key the log has not written, or has deleted again, holds exactly the keyset the log has built under its name since |
| KeysetInserts.StringInsertIsFreshExactly | src/vfdw_ledger.c:403-415 | An accepted string INSERT, from any passing keyspace, replaces nothing if and only if no row is still entered in the keyset of its key's name |
| SetInserts.SetHolds | src/vfdw_ledger.c:338-347 | A member is in a set after any log exactly as the last keyset edit or row naming it left it, or as it was at the start |
| SetInserts.SetInsertIsFreshExactly | src/vfdw_ledger_fold.c:147-240 | An accepted set INSERT, from any passing keyspace, finds its member there if and only if the row of that name is still entered in the keyset since a row of the set last named it |
| StringLogs.LegalStringLogsAreAccepted | src/vfdw_ledger.c:358-415 | A string log legal row by row is folded without refusal and its checks hold of the keyspace it is legal from |
| StringLogs.LegalStringLogsAreNotRefused | src/vfdw_ledger.c:403-415 | Without any condition on keysets, the fold refuses no string log that is legal row by row |
| MemberLogs.MemberFoldRecords | src/vfdw_ledger_fold.c:147-240 | A member the ledger records as there is there in the running keyspace, through inserts, updates, member renames and deletes |
| MemberLogs.LegalMemberLogsAreNotRefused | src/vfdw_ledger_fold.c:147-184 | The fold refuses no log of mapped set and zset rows that is legal row by row |
| ListDemand.DemandIsTheLargestBalance | src/vfdw_ledger_fold.c:246-285 | The running demand is the largest excess of removals over pushes in any prefix, or 0 |
| ListDemand.DemandIsLeast | src/vfdw_ledger_fold.c:246-285 | A starting count lets every removal find an element exactly when it is at least the demand |
| ListDemand.FoldCounts | src/vfdw_ledger_fold.c:246-285 | After any accepted log the entry's counters and the largest emitted LVALUE_COUNT_GE are the demand of that key and value |
| ListDemand.RemovalDemandIsExact | src/vfdw_ledger_fold.c:246-285 | The largest count asked for is met by a list exactly when every LREM, in log order on the real keyspace, removes an element; only this key must not be edited as a keyset |
| ScriptReply.ClassifyReply | src/vfdw_script.c:274-327 | The loop over verdict words classifies a reply and finds its detail |
| ScriptReply.ClassifyReadsTheProgram | src/vfdw_script.c:274-327 | Reading any reply the Lua program writes gives back its verdict, and for OK the plan count |
| ScriptReply.ClassifyIsExact | src/vfdw_script.c:274-327 | The verdict on any text: ours exactly when it begins with the prefix and a space, and then exactly the code whose whole word stands next |
| Flush.ProvesNotApplied | src/vfdw_flush.c:245-260 | The prefix loop recognises exactly the listed refusals |
| Flush.RefusedMeansUnchanged | src/vfdw_script.c:100-176 | A reply of the program that claims no effect is given only with the keyspace unchanged |
| Flush.Flusher.ClassifyErrorReply | src/vfdw_flush.c:285-321 | How an error reply ends an attempt, and in which phase |
| Flush.Flusher.AttemptOnce | src/vfdw_flush.c:408-470 | One attempt: what is queued and pushed, when the phase becomes SENT, and how the replies are read |
| Flush.Flusher.RunFlush | src/vfdw_flush.c:630-688 | The retry loop ends as the specification run does, with its phase and attempt count; FlushRetries says for how long it waits and how it ends |
| FlushRetries.BusyIsWaitedOut | src/vfdw_flush.c:630-688 | Attempts answered TRYAGAIN or LOADING within write_retry_count, and one NOSCRIPT among them, are waited out: the flush returns at the attempt answered OK |
| FlushRetries.WaitsEnd | src/vfdw_flush.c:630-688 | One busy answer more, or a second NOSCRIPT, ends the wait with the error for it |
| FlushRetries.TooBusyIsEarned | src/vfdw_flush.c:630-688 | The server is called too busy only after write_retry_count + 1 busy answers, the script gone only after two NOSCRIPTs, and every earlier attempt was one of these |
| FlushRetries.RefusalIsReported | src/vfdw_flush.c:285-321 | After any waits, CONFLICT reaches the user as 23505, MISSING as 40001, WRONGTYPE as 42804 and the rest as XX000, with nothing applied unless INTERNAL |
| FlushRetries.UnknownIsReported | src/vfdw_flush.c:499-540 | No reply, an answer not the program's, an unlisted error or a connection lost after sending reaches the user as 08007 |
| FlushRetries.CleanIsReported | src/vfdw_flush.c:285-321 | A refused SCRIPT LOAD and a listed refusal are reported as having applied nothing |
| FlushRetries.FailedPushIsReported | src/vfdw_flush.c:408-470 | With pipeline_batch 1 a push that fails is reported as itself and as nothing sent |
| FlushRetries.CancelIsReported | src/vfdw_flush.c:499-540 | A cancel after sending stays a cancel |
| Flush.CommitIsExactlyOnce | src/vfdw_flush.c:630-688 | Against every honest server: a return means the last attempt wrote and no other did, no retry follows a write, at most write_retry_count + 2 attempts, and with pipeline_batch above 2 an error outside SENT means nothing was written |
| Flush.ShortPipelineLies | src/vfdw_flush.c:408-470 | For pipeline_batch 1 or 2 an honest server exists for which an error outside SENT follows a write |
| Flush.CleanErrorsNeedRoomForBoth | src/vfdw_cmd.c:182-202 | The clean-error guarantee holds against every honest server if and only if pipeline_batch is at least 3 |
| Flush.ErrorsAreTruthful | src/vfdw_flush.c:499-540 | The "nothing was applied" context is given only when nothing was, and any other error is 08007, the partial-application XX000, or one the rethrow rule keeps |
| Delivery.CommitDelivers | src/vfdw_flush.c:630-688 | Against every honest server that runs the program or not in each attempt: a COMMIT that returns has left the log's writes, in order, over the keyspace it found; an error outside SENT has left that keyspace alone; with keysets taking turns nothing is ever left in part |
| Buffer.WriteBuffer.Append | src/vfdw_wbuf.c:328-360 | An operation is linked at the tail with its nest level, and the generation moves on |
| Buffer.WriteBuffer.Truncate | src/vfdw_wbuf.c:426-477 | Aborting a level removes exactly the tail at or below it, and a removal moves the shrink generation |
| Buffer.WriteBuffer.Promote | src/vfdw_wbuf.c:426-477 | Releasing a level gives its operations to the parent and removes none |
| Overlay.LaterOpsAreInvisible | src/vfdw_overlay.c:256-309 | Operations of the asking command or later change no verdict |
| Overlay.NewestIsTheLastVisible | src/vfdw_overlay.c:256-309 | The newest visible operation is the one at the last place in the buffer with the identity and an older command id; there is none exactly when no operation has both |
| Overlay.NewestDecides | src/vfdw_overlay.c:256-309 | The verdict is that of the last operation in the buffer with the identity and an older command id, and passes when there is none |
| Overlay.OverlayIndex.Record | src/vfdw_overlay.c:124-159 | Recording an operation extends its own identity's entry and no other |
| Overlay.OverlayIndex.Build | src/vfdw_overlay.c:181-235 | Whether it extends or rebuilds, a build leaves every entry equal to the buffer's subsequence with that identity |
| Overlay.OverlayIndex.Check | src/vfdw_overlay.c:256-309 | From the buffer alone: the newest operation with the identity and an older command id decides, hiding for a DELETE, replacing for a stored row and passing otherwise; with none it passes |
| Overlay.Replay | src/vfdw_overlay.c:181-235 | After any run of appends, truncations, resets and builds the index refines the buffer |
| Savepoints.PrefixIsAccepted | src/vfdw_ledger.h:110-120 | Re-folding a prefix of an accepted log never raises |
| Savepoints.Transaction.Write | src/vfdw_ledger.c:512-569 | A write appends and folds; a refusal leaves the operation for the abort to unlink |
| Savepoints.Transaction.AbortSub | src/vfdw_ledger.c:571-612 | Rolling back to a savepoint restores the log it began with, and the ledger is the fold of that log |
| Savepoints.Transaction.CommitSub | src/vfdw_wbuf.c:426-477 | Releasing a savepoint keeps the log and the ledger and re-folds nothing |
| Savepoints.Transaction.Finish | src/vfdw_wbuf.c:489-514 | The end of the transaction leaves buffer, ledger and overlay empty |
| ReadScan.TableScan.IterNext | src/vfdw_overlay.c:320-366 | The tail iterator gives each created, visible, not yet seen key, and restarts safely when the index was rebuilt |
| ReadScan.TableScan.Inject | src/vfdw_scan_overlay.c:152-177 | A tail row is given once, marked as seen, and is the expected one |
| ReadScan.TableScan.DrainTail | src/vfdw_scan_overlay.c:216-231 | When the tail gives no more, every key's expected row has been given |
| ReadScan.TableScan.Fetch | src/vfdw_scan.c:516-560 | Each fetch gives one expected row not given before, or none when all have been given |
| ReadScan.ReadYourOwnWrites | src/vfdw_scan.c:478-560 | Whatever operations of the asking command or later arrive between fetches, the scan ends within one fetch more than there are server keys and operations buffered at its start, having given every key's expected row exactly once and nothing else |
| ReadScan.ArrivalsChangeNothing | src/vfdw_overlay.c:256-366 | The expected rows are those of the buffer as the scan began if and only if no later INSERT is on a key the command already sees that neither the server nor that buffer had inserted |
| Search.KnnScan.Grow | src/vfdw_search.c:363-408 | A longer prefix of the same ranking, twice as long up to 65536; or the end, with everything given; or an error exactly when the ranking goes on that far with too few qualifying rows |
| Search.KnnScan.TakeRow | src/vfdw_search.c:424-477 | A row is emitted exactly when it can be read, is wanted, was not given by an earlier pass and the limit is not reached |
| Search.KnnScan.Next | src/vfdw_search.c:479-525 | Each call emits the next qualifying row in rank order, and the search terminates |
| Search.NearestQualifying | src/vfdw_search.c:424-525 | A search ending without error with a weaker filter emitted exactly the first min(k, matches) qualifying rows in rank order; with an exact filter it emitted what can be read of the first k, which is that if and only if nothing is missed; it errs if and only if the filter is inexact, the ranking is at least max(k, 65536) long and fewer than k rows qualify that far down |
| Search.FilterThenQual | src/vfdw_search.c:336-348 | Filtering on the server by any superset of the quals and rechecking selects what the quals select |
| Search.FirstPassIsEnoughExactly | src/vfdw_search.c:363-408 | What can be read of the first k entries is the k nearest if and only if all of them can be read or nothing beyond them can |
| Search.UnreadableNearestIsMissed | src/vfdw_search.c:430-432 | A concrete ranking for which an exact search for one row gives none although one qualifies |
| Pipeline.Batch.Flush | src/vfdw_cmd.c:164-174 | Everything queued becomes outstanding, in order; an empty queue costs no push |
| Pipeline.Batch.Add | src/vfdw_cmd.c:182-202 | The command is due last, and is pushed exactly when the pipeline is full |
| Pipeline.Batch.Next | src/vfdw_cmd.c:210-234 | The reply taken is the one to the oldest due command, whatever was still buffered |
| Pipeline.Batch.End | src/vfdw_cmd.c:236-254 | Every reply due is taken, so the next statement finds the connection clean |
| Pipeline.AddAll | src/vfdw_cmd.c:182-202 | n commands with no take flush floor(n / pipeline_batch) times, counting what was already queued |
| Pipeline.PageReader.QueuePage | src/vfdw_scan_cmd.c:142-193 | The commands due are those of every key of the page, in page order |
| Pipeline.PageReader.TakeReplies | src/vfdw_scan_cmd.c:195-242 | Exactly the replies to this key's commands are consumed, each read as the answer to the command that asked for it, and the value is the live reply |
| Pipeline.PageReader.NextPage | src/vfdw_scan.c:235-265 | Nothing is due at a refill, so the reply read as a page is the SCAN's |
| Pipeline.PageReader.Traverse | src/vfdw_scan.c:516-560 | Over any number of pages, the keys the server listed are read in order, each with its own replies |
| ClusterMap.Builder.Intern | src/vfdw_cluster.c:98-116 | A primary's index, reused if known; hosts without a NUL keep the node list free of repeats |
| ClusterMap.Builder.ApplySlots | src/vfdw_cluster.c:172-197 | Exactly the slots of the well-formed ranges inside 0..16383 get the node, all others keep their owner |
| ClusterScan.PlacedKeysGoToOneNode | src/vfdw_scan_cluster.c:209-247 | A placed key is asked of its owner, as often as it was named, and of no other node; an unplaced one of every node |
| ClusterScan.RecalledExactlyWhenWhole | src/vfdw_scan_cluster.c:259-282 | A redirected key is kept under its own name, whatever memory holds, if and only if it has no NUL before its last byte |
| ClusterScan.TwoBytesWithANul | src/vfdw_scan_cluster.c:259-282 | A two-byte key that is asked for again as another key |
| ClusterScan.Scan.KeysForNode | src/vfdw_scan_cluster.c:209-247 | The loop keeps exactly the keys asked of this node |
| ClusterScan.Scan.OpenNode | src/vfdw_scan_cluster.c:364-402 | A node is opened on exactly the plan's keys it owns or nobody owns, and off a cluster on all of them |
| ClusterScan.Scan.KeysPage | src/vfdw_scan_cluster.c:364-402 | Nodes owning none of the keys are passed over; when no page is left, no named key is still waiting |
| ClusterScan.Scan.RetryPass | src/vfdw_scan_cluster.c:292-350 | Nothing owed ends the scan, something owed begins a pass under the cached map or, if a MOVED dropped it, the next one loaded, and a spent budget is an error with the number of keys |
| ClusterScan.Scan.NextPage | src/vfdw_scan.c:235-265 | An exhausted node advances to the next primary; only running out of primaries ends the walk |
| ClusterScan.Scan.Refill | src/vfdw_scan.c:270-301 | More keys, or everything settled, or an error |
| ClusterScan.Scan.Redirected | src/vfdw_scan_cluster.c:259-282 | The key's copy is kept for the next pass; MOVED drops the cached map and ASK keeps it |
| ClusterScan.Scan.TakeKey | src/vfdw_scan.c:478-508 | A reply is always taken; only the transaction's own verdict goes before a redirect, and a redirected key stays accounted for |
| ClusterScan.Scan.Run | src/vfdw_scan_cluster.c:209-402 | For every cluster history with a primary in each map: a scan ending without error got a non-redirect reply or an overlay verdict for every whole key given or discovered, and a walk of the keyspace discovered every key of every page of every primary; every key asked for by name was asked of its slot's owner in the map then in force; at most 3 retry passes, and it terminates |
| Slot.Crc16 | src/vfdw_slot.c:44-62 | The two nested loops compute the register function, for every byte string |
| Slot.CrcIsTheRemainder | src/vfdw_slot.c:44-62 | The register is the one and only remainder of message times x^16 by x^16+x^12+x^5+1 over GF(2), for every byte string |
| Slot.RemainderIsUnique | src/vfdw_slot.c:44-62 | A message has one remainder, so the division property determines the CRC |
| Slot.HashTagIsExact | src/vfdw_slot.c:85-111 | The bytes hashed are the hash tag if the key has one and the whole key otherwise |
| Slot.TaggedKeysShareASlot | src/vfdw_slot.c:126-135 | A key with a hash tag has the tag's slot, whatever surrounds it |
| Slot.SlotOf | src/vfdw_slot.c:126-135 | The slot is below 16384; which one it is, Slot.SlotIsTheRemainder says |
| Slot.SlotIsTheRemainder | src/vfdw_slot.c:126-135 | A key's slot is the remainder of its hash tag's bytes times x^16, read as a number, modulo 16384, for every key |
| Slot.ByteBitsAreTheByte | src/vfdw_slot.c:44-62 | A byte's eight bits, most significant first, are the byte as a number |
| SlotCheck.KeyTableIsWhatTheLogWrites | src/vfdw_script_encode.c:174-196 | KEYS holds exactly the keys the log writes: row keys, rename sources and edited keysets, none missing and none extra |
| SlotCheck.Meet | src/vfdw_flush_cluster.c:56-98 | One key against the slot so far; an absent or empty key is not looked at |
| SlotCheck.UnitSlot | src/vfdw_flush_cluster.c:107-127 | A log is accepted only with the slot all its non-empty keys share, and a refusal names two keys that do not share one |
| SlotCheck.AcceptedUnitIsOneSlot | src/vfdw_flush_cluster.c:56-127 | Every non-empty key of KEYS, renames included, hashes to the accepted slot; all of KEYS does if and only if that slot is 0 or nothing writes the empty key |
| SlotCheck.EmptyKeyEscapesTheCheck | src/vfdw_flush_cluster.c:62-63 | Two concrete INSERTs accepted for slot 4129 that declare a key of slot 0 |
| Score.ScoreScan | src/vfdw_score.c:46-95 | The loops compute the scan function |
| Score.ScanIsTheLongestScore | src/vfdw_score.c:29-95 | The scan is the length of the longest prefix in the grammar, or 0 when there is none; a whole string is in the grammar exactly when the scan reaches its end |
| Score.ScoresHaveNoNul | src/vfdw_score.c:171-178 | A string in the grammar is what a C function sees of it |
| Score.IsInfinite | src/vfdw_score.c:114-139 | The loop recognises exactly the signed spellings of inf and infinity in any ASCII case |
| Score.Classify | src/vfdw_score.c:153-204 | Every byte string gets one verdict; OK, overflow and underflow only within the grammar, trailing exactly when a proper prefix is a score, infinite exactly when spelled so |
| Like.FindPrefix | src/vfdw_plan.c:401-423 | The loop returns the bytes a pattern has before its first wildcard, or none |
| Like.MatchesStartWithPrefix | src/vfdw_plan.c:401-423 | Every string a LIKE pattern matches starts with that prefix, in any encoding |
| Like.PrefixIsTheWholeLiteral | src/vfdw_plan.c:401-423 | However a literal is spelled, escaped or not, in front of a wildcard, the end or a stray backslash, the prefix is that literal and no shorter |
| Like.EveryPatternBegins | src/vfdw_plan.c:401-423 | Every pattern has such a literal beginning |
| Like.LiteralMatchesItself | src/vfdw_plan.c:401-423 | A pattern without wildcards matches its literal and nothing else |
| Like.EscapeGlob | src/vfdw_plan.c:494-512 | The loop quotes each metacharacter |
| Like.EscapedGlobIsPrefix | src/vfdw_plan.c:494-544 | The quoted prefix and a star match, under Valkey's glob rules, exactly the keys with that prefix, for all bytes |
| Like.ScanPattern | src/vfdw_plan.c:514-544 | The pattern is the quoted LIKE prefix where it extends the table's, else the table's, and none for a keyset table |
| Like.NarrowingIsSoundAndScoped | src/vfdw_plan.c:401-544 | No key of the table that the LIKE accepts is missed by the pattern, and no key outside the table is matched by it |
| Like.PatternMatchesExactly | src/vfdw_plan.c:514-544 | The pattern matches exactly the table's keys that begin with the LIKE's literal where that extends the table's prefix, and otherwise exactly the table's keys |

## Left out

- Renames.LiveRenamesAreApplied: for hashes, lists, sets and zsets, and with keysets, the condition is sufficient and not necessary, because a removal may or may not have emptied its key; for string tables without keysets it is exact.
- Regroup.RegroupingPreservesMeaning: is about logs without renames; `MovedLogs.MovedRegroupingPreservesMeaning` is its counterpart with them.
- MovedLogs.MovedRegroupingPreservesMeaning: the condition is sufficient and not necessary for hashes, lists, sets and zsets and with keysets; for string tables without keysets `Traces.OrderIsKeptExactly` is exact.
- NoOverwrite.InsertsNeverOverwrite: for hash fields and zset members, an earlier edit of the INSERT's own key as a keyset is excluded; for string keys and set members the exact conditions are `KeysetInserts.StringInsertIsFreshExactly` and `SetInserts.SetInsertIsFreshExactly`.
- Outcomes.MovesLeaveTheRows: is about logs whose commands can be regrouped, as `MovedLogs.MovedRegroupingPreservesMeaning` is.
- ClusterScan.Scan.Run: settles every key with no NUL before its last byte; for the others the key asked for again is a different one.
- Server.ReadSteps: a number in ARGV is the decimal digits the encoder writes; Lua's tonumber also reads signs, spaces, hexadecimal and fractions.
- Server.ReadPlan: reads header numbers as decimal digits only, in the same way.
- Server.ReadPlans: reads numbers as decimal digits only, in the same way.
- Server.ReadProgram: reads numbers as decimal digits only, in the same way.
- WireFormat.DecodesExactlyTheWellFormed: takes numbers to be decimal digits only, in the same way.
- Savepoints.Transaction.AbortSub: the generation counters are unbounded, without 64-bit wrap-around.
- MemberLogs.LegalMemberLogsAreNotRefused: says nothing of phase 1, whose KEY_ABSENT refuses a first INSERT into a set that exists; `Assumptions.PhaseOneAsksWhatTheRowsAssume` says exactly what it asks.
- Overlay claims for mapped list, set and zset tables, whose overlay is keyed by key and not by member.
- Rescan of a cluster scan, and a search with a null bound or an empty vector.
- strtod and its range verdicts beyond what a conforming implementation reports; datum conversion and encodings.
- Parsing CLUSTER SHARDS beyond interning a primary and applying its ranges, and recognising MOVED and ASK by prefix.
- The write_max_ops and write_max_bytes caps, binding a unit to one server and user, and parallel workers.
- Sockets, timeouts, TLS, AUTH, the connection pool, memory contexts and error-path cleanup.
- PostgreSQL planner glue, EXPLAIN, ANALYZE, COPY, option parsing and the wording of messages.
