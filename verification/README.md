# Provenex core: a verified model

Provenex signs a row for every fingerprinted chunk, appends the row to a transparency log, and
emits receipts that an auditor can check offline. This project models the parts that this claim
rests on and proves that they fit together:

- `Hashing`, `Merkle`, `TreeHeads`, `InclusionProof`, `MerkleTheorems`: the RFC 6962 log (section 2.1). The tree
  is a class with the source's memo; the verifier is the loop on shifted counters that section
  2.1.3.2 of RFC 9162 describes (the comment at provenex/core/merkle.py:196 names section 2.1.2 of
  RFC 6962). SHA-256 is any function from byte strings to 32 bytes: security statements return
  two different inputs with equal hash, computed by a function from the data at hand.
- `Payload`: UTF-8, decimal integers, the newline-joined payload a row's signature covers, and the
  prefixed hex form of hashes.
- `IndexTables`, `SqliteIndex`: the documents and fingerprints tables, every writing operation as
  a function on them, the class that updates them statement by statement, and what runs of
  operations add up to. HMAC is any function of secret and payload.
- `MerkleIndex`: the SQLite index with its leaf table, in-memory tree and fingerprint map.
- `Audit`: the offline check of inclusion proofs, and what acceptance says about the log.
- `PostgresIndex`: transactions as interleaved statements under READ COMMITTED with private writes,
  a lock per hash of the document id (any hash, collisions included), commits and rollbacks.
- `MerklePostgres`, `LogRaces`, `MerkleTransactions`: many writers appending leaves behind one lock,
  with `supersede` and `set_authorization` of other clients in between; how many leaves a row gets;
  and the same with each inherited `add` taken apart into the statements of `PostgresIndex`.
- `DagSearch`, `Trajectory`, `Session`: the auditor's three-colour search over an explicit stack,
  the five checks, and the session that produces receipts.
- `RollingHash`: the constant-time hash update and the windows over a text.
- `RetryQueue`: the bounded retry queue under any schedule of downstream failures.
- `Policy`: path resolution, rule scopes, constraints and the first-violation loop.
- `TreeHeads`, `PayloadLaws`, `IndexLaws`, `PostgresLaws`, `SessionLaws`, `RetryLaws`, `PolicyLaws`: what each
  operation answers or stores, stated in terms of its arguments and the state alone (bytes, columns,
  events, decisions), so that the theorems above cannot hold of a model that computes something else.

Objects that the source updates in place are classes, and its loops are loops. Each method is
proved equal to a function of its inputs or of the old state, and the properties are proved about
that function. The clock, random ids, HMAC, SHA-256 and library parsers are parameters.

## What the proofs show about the code

Places where the code differs from its own description, or where a natural property needs a
condition. Each is stated and proved.

- Ingesting version A, then B, then A again leaves A's rows superseded although A is current: the
  insert is ignored for an existing key (`ReingestedRowStaysSuperseded`; the exact condition is
  `IngestedRowIsCurrentIff`).
- `supersede` is documented to return the number of entries marked (provenex/index/base.py:171); it
  counts every matching row. That is the number of rows newly marked if and only if none of them was
  superseded before (`CountIsNewlyMarkedIff`), which fails after two versions have been ingested
  (`SupersedeCountsTwice`).
- When no writer is under way, rows and leaves of the Postgres log are in bijection if and only if
  there was no moment at which two adds of one row had both looked for it in vain and neither had
  inserted it (`OneLeafPerRow`);
  so they are with one writer at a time (`SingleWriterLogsOnce`), and are not after
  `RacingAddsLogTwice`. A row gets one leaf for every add that looked before it was there (`LeafCount`).
- A fingerprint with rows under two documents is looked up as one row and proved as the other once
  the document added last is superseded (`LookupAndProofDisagree`). A source filled from such an index
  fails the audit, short of a hash collision (`MismatchedSource`).
- The full-queue warning of the retry queue. Every drop has been announced by it since the last
  delivery, for every failure schedule, if and only if the queue is not of length 0
  (`AnnouncesInTimeIff`); with a publish that passed the closed check before a `close` and takes the
  lock after, if and only if the queue is unbounded (`AlwaysAnnouncesIff`), because `close` drains
  without re-arming the warning. For the same reason the flag may stay set on a queue that is not full
  (`FlagMeansFullIff`). A queue of length 0 reports each lost receipt by the failure warning of its own
  publish (`EmptyQueueReports`).
- The documentation says that `session_id` never resolves under `request.*` in a rule
  (provenex/policy/evaluator.py:150-158). It does: any two session ids can be told apart by an
  accepted rule (`SessionIdDecides`). A path is independent of the session id if and only if it leads
  elsewhere or into another field of the request (`SessionBlindIff`), and rules with such paths only
  never depend on it (`SessionIdIrrelevant`).
- Validation lets a path without a dot pass unless it is a reserved name
  (provenex/policy/yaml_evaluator.py:203); if it is no root, evaluation raises, and the order of the rules decides between a denial and an
  exception (`OrderMattersWhenRaising`). Whether a list allows never depends on its order
  (`OrderIrrelevant`), and with known roots neither does whether it denies
  (`WellRootedOrderIrrelevant`).
- Of several operators in one constraint only the first recognised one counts
  (`OnlyFirstOperatorCounts`).

## Model

| member | source | states |
|---|---|---|
| `Merkle.LargestPow2Lt` | provenex/core/merkle.py:59-61 | The split point k of n > 1 leaves satisfies k < n <= 2k. |
| `Merkle.SplitUnique` | provenex/core/merkle.py:59-61 | A power of two with these bounds is the split point: the bit_length formula is the one RFC 6962 asks for. |
| `Merkle.RangesCount` | provenex/core/merkle.py:114-127 | The tree hash of n leaves visits exactly 2n-1 ranges, n-1 of them inner nodes. |
| `Merkle.FillKeys` | provenex/core/merkle.py:114-127 | Asking for a range adds exactly that subtree's ranges to the memo, and the memo stays closed under subtrees. |
| `Merkle.CostIsMissing` | provenex/core/merkle.py:114-127 | The number of node hashes computed is the number of inner ranges of the subtree that the memo lacks. |
| `Merkle.FromEmpty` | provenex/core/merkle.py:105-127 | From an empty memo the head of n leaves takes exactly n-1 node hashes and leaves 2n-1 entries. |
| `Merkle.FilledIsFree` | provenex/core/merkle.py:114-127 | Once a subtree is in the memo, asking for it computes nothing and changes nothing. |
| `Merkle.MerkleTree.constructor` | provenex/core/merkle.py:77-81 | A new tree has no leaves and an empty, sound memo. |
| `Merkle.MerkleTree.Append` | provenex/core/merkle.py:89-101 | Appends the leaf's hash, returns its position and clears the memo. |
| `Merkle.MerkleTree.Root` | provenex/core/merkle.py:105-112 | Returns the uncached tree head in every state of the memo; from an empty memo with exactly n-1 node hashes. |
| `Merkle.MerkleTree.MthRange` | provenex/core/merkle.py:114-127 | The memoised hash of a range equals the recursive tree hash, with the memo and the cost the specification gives. |
| `Merkle.MerkleTree.InclusionProof` | provenex/core/merkle.py:131-146 | A path exactly for positions in range; it is the recursive audit path, and free of node hashes once the head has been computed. |
| `Merkle.MerkleTree.ProofRange` | provenex/core/merkle.py:148-155 | The path within a range, by the split rule, bottom up. |
| `InclusionProof.UnwindLoop` | provenex/core/merkle.py:197-199 | The inner loop shifts both counters until the first is odd or zero. |
| `InclusionProof.VerifyInclusionProof` | provenex/core/merkle.py:163-205 | The loop on shifted counters accepts exactly what its recursive reading accepts, out-of-range sizes and indices rejected. |
| `InclusionProof.WalkLeft` | provenex/core/merkle.py:188-203 | Left of the split the verifier takes the same turns as in the left subtree alone, then one more. |
| `InclusionProof.WalkRight` | provenex/core/merkle.py:188-203 | Right of the split an extra high bit in both counters changes no turn, unwinding included. |
| `InclusionProof.WalkIsFoldPath` | provenex/core/merkle.py:148-205 | For every size, index and proof the bottom-up walk equals the top-down fold by the split rule. |
| `InclusionProof.AcceptsIffFolds` | provenex/core/merkle.py:163-205 | The verifier accepts a proof if and only if the split rule folds it to the given root. |
| `MerkleTheorems.FoldOfPath` | provenex/core/merkle.py:114-155 | Folding the prover's path gives back the tree hash of its range. |
| `MerkleTheorems.Completeness` | provenex/core/merkle.py:148-205 | For every log and every position the verifier accepts the prover's path against the log's head. |
| `MerkleTheorems.PathLength` | provenex/core/merkle.py:148-155 | A path in an n-leaf range has at most bit_length(n-1) hashes. |
| `MerkleTheorems.PathSound` | provenex/core/merkle.py:148-205 | A path that folds to the tree hash starts at the stored leaf hash and is the prover's own, or a hash collision is returned. |
| `MerkleTheorems.Soundness` | provenex/core/merkle.py:163-205 | If the verifier accepts against an n-leaf log's head, the leaf is the one at that position and the proof is exactly the prover's, or a hash collision is returned. |
| `MerkleTheorems.RangeCommits` | provenex/core/merkle.py:49-61 | Ranges of two logs, of any sizes, with equal tree hash and different leaves yield a hash collision. |
| `MerkleTheorems.HeadCommits` | provenex/core/merkle.py:49-127 | Two logs of any sizes, empty included, with the same head are the same log, or a hash collision is returned. |
| `TreeHeads.HeadOfNone` | provenex/core/merkle.py:105-112 | The head of the empty log is the hash of the empty string. |
| `TreeHeads.HeadOfOne` | provenex/core/merkle.py:49-51 | The head of one leaf is SHA-256(0x00, leaf). |
| `TreeHeads.HeadOfMore` | provenex/core/merkle.py:54-127 | The head of more is SHA-256(0x01, head of the first k, head of the rest), k the largest power of two below the size. |
| `TreeHeads.PathOfLeft` | provenex/core/merkle.py:148-155 | Left of k the audit path is the path in the first k leaves, then the head of the rest. |
| `TreeHeads.PathOfRight` | provenex/core/merkle.py:148-155 | Right of k it is the path in the rest, then the head of the first k. |
| `Payload.ScalarRoundTrip` | provenex/index/sqlite_index.py:148-157 | The UTF-8 encoding of a code point carries its own length and decodes back. |
| `Payload.Utf8Injective` | provenex/index/sqlite_index.py:148-157 | Texts with equal UTF-8 encodings are equal. |
| `Payload.DecRoundTrip` | provenex/index/sqlite_index.py:154-155 | The decimal form of any integer, negative included, parses back. |
| `Payload.SplitJoin` | provenex/index/sqlite_index.py:148-157 | Lines without newlines are recovered from their join. |
| `Payload.CanonicalPayload` | provenex/index/sqlite_index.py:112-157 | A payload exists exactly when none of the four text fields holds a newline, carriage return or null. |
| `Payload.PayloadRoundTrip` | provenex/index/sqlite_index.py:129-157 | All six fields are parsed back from the payload's text. |
| `Payload.PayloadInjective` | provenex/index/sqlite_index.py:129-157 | Equal payload bytes mean six equal fields. |
| `Payload.PrefixedHexRoundTrip` | provenex/cli/main.py:223-227 | What the index prints as a prefixed hash the auditor decodes to the same bytes. |
| `PayloadLaws.ScalarForm` | provenex/index/sqlite_index.py:148-157 | Code points are encoded in the four forms of section 3 of RFC 3629. |
| `PayloadLaws.PayloadForm` | provenex/index/sqlite_index.py:148-157 | The signed bytes are the six fields in order, one line each, as UTF-8. |
| `PayloadLaws.DecimalForm` | provenex/index/sqlite_index.py:154-155 | Integers are written in decimal without leading zeros, after a minus sign if negative. |
| `PayloadLaws.PrintedForm` | provenex/index/merkle_sqlite_index.py:49-51 | A hash is printed as "sha256:" and two lower-case digits a byte, the high half first. |
| `PayloadLaws.ReadableIff` | provenex/cli/main.py:223-227 | Without white space the auditor reads exactly strings of hexadecimal digit pairs. |
| `IndexTables.StepRow` | provenex/index/sqlite_index.py:205-341 | One operation removes no row and rewrites no signed column, sets a row's superseded flag exactly when it displaces the row, and inserts at most its own row, as current. |
| `IndexTables.StepSound` | provenex/index/sqlite_index.py:205-341 | Every operation keeps: each row's document exists, its signature covers its payload, and a row not superseded is of the document's current version. |
| `IndexTables.StepKeeps` | provenex/index/sqlite_index.py:205-341 | After an operation the rows are the old ones with unchanged signed columns, plus the operation's own. |
| `IndexTables.RunSound` | provenex/index/sqlite_index.py:205-341 | The three invariants hold after every run from empty tables. |
| `IndexTables.SupersededHistory` | provenex/index/sqlite_index.py:237-341 | After any run a row is superseded if and only if some operation moved its document to another version while the row existed. |
| `IndexTables.RowsPersist` | provenex/index/sqlite_index.py:205-341 | A row present after a prefix of a run is there at the end with the same signed columns and signature, and superseded if it was. |
| `IndexTables.IngestedRowIsCurrentIff` | provenex/index/sqlite_index.py:237-286 | An ingested row ends up current if and only if it was not already there as superseded; its document has the given version and authorization. |
| `IndexTables.ReingestedRowStaysSuperseded` | provenex/index/sqlite_index.py:271-286 | Ingesting A, B, A leaves A's row superseded while A is the current version. |
| `IndexTables.CountIsNewlyMarkedIff` | provenex/index/base.py:162-172 | The number of rows supersede matches is the number it newly marks if and only if no matched row was superseded before. |
| `IndexTables.SupersedeCountsTwice` | provenex/index/sqlite_index.py:329-341 | After ingesting two versions of a document, superseding both counts two rows and newly marks one. |
| `IndexTables.BestExists` | provenex/index/sqlite_index.py:290-303 | The ordered query over any non-empty set of rows has a first row. |
| `IndexTables.AnswersMean` | provenex/index/sqlite_index.py:345-370 | In a sound state: unverified if and only if no row has the fingerprint; never tampered; stale only if all its rows are superseded; verified only for a current row of an authorized document; unauthorized only for one of an unauthorized document. |
| `IndexTables.SingleRowAnswer` | provenex/index/sqlite_index.py:345-370 | For a fingerprint with one row the verdict is determined by authorization, then the superseded flag. |
| `IndexTables.ChangedRowIsTampered` | provenex/index/sqlite_index.py:345-365 | Changing any signed column of a stored row is reported as tampering, or the MAC gives two different payloads one tag. |
| `IndexLaws.AddRejectedIff` | provenex/index/sqlite_index.py:214-234 | An add is rejected exactly for a fingerprint or version without the "sha256:" prefix or a newline, carriage return or null in one of the four text fields. |
| `IndexLaws.AddStores` | provenex/index/sqlite_index.py:223-286 | A new row holds the clock reading, the given offset and length, is not superseded, and is signed over the payload of exactly its six arguments. |
| `IndexLaws.AddDocuments` | provenex/index/sqlite_index.py:237-269 | An accepted add gives its document the version and the flag and touches no other. |
| `IndexLaws.AddSupersedes` | provenex/index/sqlite_index.py:250-256 | It supersedes exactly the rows of other versions of its document, when that was at another version, and changes no other column. |
| `IndexLaws.AddInserts` | provenex/index/sqlite_index.py:271-286 | It inserts no row but its own. |
| `IndexLaws.SupersedeRows` | provenex/index/sqlite_index.py:329-341 | Supersede marks exactly the rows of other versions of the document and changes no other column. |
| `IndexLaws.SupersedeDocuments` | provenex/index/sqlite_index.py:336-339 | It moves a known document's version, keeps its flag, and adds and touches no other. |
| `IndexLaws.SetAuthorizationSets` | provenex/index/sqlite_index.py:319-325 | It changes a known document's flag and nothing else. |
| `IndexLaws.AuthorizationIsAnswered` | provenex/index/sqlite_index.py:319-370 | After authorization is withdrawn a fingerprint with one row is answered as unauthorized, and after it is granted as stale or verified. |
| `IndexLaws.AddedIsAnswered` | provenex/index/sqlite_index.py:205-370 | A fingerprint first added is answered as verified or unauthorized by the flag it came with. |
| `IndexLaws.LookupPrefers` | provenex/index/sqlite_index.py:290-303 | Lookup returns a superseded row only if all are, and among rows of its kind none ingested later exists. |
| `SqliteIndex.SqliteProvenanceIndex.Add` | provenex/index/sqlite_index.py:205-286 | The statements of an add result in the specified tables; the three kinds of rejection leave them unchanged. |
| `SqliteIndex.SqliteProvenanceIndex.Supersede` | provenex/index/sqlite_index.py:329-341 | Marks every older row, moves the version and returns how many rows matched. |
| `SqliteIndex.SqliteProvenanceIndex.SetAuthorization` | provenex/index/sqlite_index.py:319-325 | Changes the flag of an existing document and nothing else. |
| `SqliteIndex.SqliteProvenanceIndex.Lookup` | provenex/index/sqlite_index.py:290-315 | Returns a first row of the ordered join, nothing exactly when there is none. |
| `SqliteIndex.SqliteProvenanceIndex.Verify` | provenex/index/sqlite_index.py:345-370 | Gives an answer the tables allow, and in no reachable state the tampered one. |
| `MerkleIndex.LeavesAndRowsBijective` | provenex/index/merkle_sqlite_index.py:98-163 | As many leaves as rows, every row logged exactly once, indices without gaps, and each leaf is the payload its row's signature covers. |
| `MerkleIndex.LastIndexIsLatest` | provenex/index/merkle_sqlite_index.py:162-163 | The map gives the latest position of a fingerprint, and knows exactly the logged ones. |
| `MerkleIndex.StepOnDisk` | provenex/index/merkle_sqlite_index.py:98-135 | An operation that adds no row keeps the stored leaves in bijection with the rows. |
| `MerkleIndex.AppendOnDisk` | provenex/index/merkle_sqlite_index.py:137-163 | Logging the one new row at the next index keeps the bijection. |
| `MerkleIndex.MerkleSqliteIndex.constructor` | provenex/index/merkle_sqlite_index.py:66-83 | A new index is empty and its parts agree. |
| `MerkleIndex.MerkleSqliteIndex.Open` | provenex/index/merkle_sqlite_index.py:66-83 | Opening a stored database restores the whole invariant. |
| `MerkleIndex.MerkleSqliteIndex.RebuildTreeFromDisk` | provenex/index/merkle_sqlite_index.py:85-94 | Replaying the leaf table gives the tree and the map that the stored leaves determine. |
| `MerkleIndex.MerkleSqliteIndex.Add` | provenex/index/merkle_sqlite_index.py:98-163 | Exactly a new row gets the next leaf; a repeated or rejected add leaves the log alone, and earlier leaves stay. |
| `MerkleIndex.MerkleSqliteIndex.ReadBack` | provenex/index/merkle_sqlite_index.py:137-154 | The leaf built from the row read back is the payload its signature covers. |
| `MerkleIndex.MerkleSqliteIndex.Supersede` | provenex/index/sqlite_index.py:329-341 | The inherited operation keeps the log and the bijection. |
| `MerkleIndex.MerkleSqliteIndex.SetAuthorization` | provenex/index/sqlite_index.py:319-325 | The inherited operation keeps the log and the bijection. |
| `MerkleIndex.MerkleSqliteIndex.TreeRoot` | provenex/index/merkle_sqlite_index.py:170-173 | The printed head is that of the stored leaves. |
| `MerkleIndex.MerkleSqliteIndex.InclusionProof` | provenex/index/merkle_sqlite_index.py:175-199 | A proof exactly for fingerprints that have a row, for their latest leaf, and the verifier accepts it against the current size and head. |
| `MerkleIndex.Reopen` | provenex/index/merkle_sqlite_index.py:85-94 | Reopening yields the same leaf hashes and the same map. |
| `Audit.DecodeProof` | provenex/cli/main.py:327 | The whole proof decodes or the source fails. |
| `Audit.DecodesIff` | provenex/cli/main.py:327 | A proof decodes exactly when each of its hashes does, into those hashes in order. |
| `Audit.VerdictIs` | provenex/cli/main.py:318-344 | A source with a proof and an index fails when head, field, index, size or a hash is missing or unreadable, and otherwise passes exactly when the verifier accepts. |
| `Audit.AuditInclusionProofs` | provenex/cli/main.py:301-346 | One finding per source that carries a proof and an index, in order, with the right verdict, and none for others. |
| `Audit.AuditSource` | provenex/cli/main.py:318-344 | A source passes exactly when head, fields, proof and root decode and the verifier accepts. |
| `Audit.AcceptedSourceIsLogged` | provenex/cli/main.py:205-220 | An accepted source has all six fields of the row at its leaf index, or a hash collision is returned. |
| `Audit.DecodeEncoded` | provenex/cli/main.py:223-227 | Decoding a printed path gives the path. |
| `Audit.OwnProofAccepted` | provenex/cli/main.py:301-346 | A row with the proof of its own leaf is accepted. |
| `Audit.ForeignProofRejected` | provenex/cli/main.py:301-346 | If a stored row is accepted with some proof, that proof's index is the row's own leaf, or a hash collision is returned. |
| `Audit.SourceFromIndex` | provenex/index/merkle_sqlite_index.py:165-199 | A source filled from lookup, proof and head of one state is accepted when the looked-up row owns the fingerprint's latest leaf, hence whenever it is the only row. |
| `Audit.LookupAndProofDisagree` | provenex/index/merkle_sqlite_index.py:175-199 | After adding one fingerprint under two documents and superseding the second, every row lookup may return is the first document's and the latest leaf is the second's. |
| `Audit.MismatchedSource` | provenex/cli/main.py:301-346 | A source filled from that index carries the first row and the second's proof, and the audit rejects it, or a hash collision is returned. |
| `PostgresIndex.StatementOnTrack` | provenex/index/postgres_index.py:203-344 | Each statement's private writes are those its operation makes on the committed rows of its document. |
| `PostgresIndex.FullWritesApply` | provenex/index/postgres_index.py:203-344 | A finished transaction's writes over the committed tables are the operation applied to them. |
| `PostgresIndex.OtherPartsUntouched` | provenex/index/postgres_index.py:203-344 | An operation changes no row and no flag of another document. |
| `PostgresIndex.StepInv` | provenex/index/postgres_index.py:203-344 | Every step of any transaction, commit, lock or rollback included, keeps the protocol invariant. |
| `PostgresIndex.ExecInv` | provenex/index/postgres_index.py:203-344 | The invariant holds after every interleaving. |
| `PostgresIndex.Serializability` | provenex/index/postgres_index.py:203-344 | After any interleaving the tables are those of the committed operations run serially in commit order, each committed once; a committed supersede reported its serial count. |
| `PostgresIndex.ReadsSeeSerialPrefix` | provenex/index/postgres_index.py:274-301 | What a reader sees at any moment is the state after a prefix of the final serial run. |
| `PostgresIndex.ReadersSeeSoundTables` | provenex/index/postgres_index.py:274-301 | And it satisfies the table invariants. |
| `PostgresIndex.NoDeadlock` | provenex/index/postgres_index.py:203-222 | While a transaction is unfinished, some transaction can move. |
| `PostgresLaws.RollsBack` | provenex/index/postgres_index.py:203-222 | A rollback drops the transaction's writes, frees its lock and no other, and leaves tables and other transactions alone. |
| `PostgresLaws.FreeCallCommits` | provenex/index/postgres_index.py:203-344 | A call with valid arguments that finds its lock free commits exactly its operation within six steps of its own. |
| `MerklePostgres.CommitLeaf` | provenex/index/merkle_postgres_index.py:146-176 | The index read behind the lock is still the next free one at commit. |
| `MerklePostgres.StepInv` | provenex/index/merkle_postgres_index.py:108-179 | Every step of a writer or of another client keeps the log invariant. |
| `MerklePostgres.ExecInv` | provenex/index/merkle_postgres_index.py:108-179 | After any interleaving leaf indices are exactly 0..N-1, every leaf is the signed payload of an existing row, and every row is logged or owed a leaf. |
| `MerklePostgres.LeavesStay` | provenex/index/merkle_postgres_index.py:168-176 | A committed leaf never changes. |
| `MerklePostgres.EveryRowLogged` | provenex/index/merkle_postgres_index.py:108-179 | When no writer is under way, exactly the stored rows are logged. |
| `LogRaces.LeafCount` | provenex/index/merkle_postgres_index.py:117-179 | When no writer is under way, a row has the leaves it had, plus one for each add of it that had looked before the row was there. |
| `LogRaces.BeyondIffMissed` | provenex/index/merkle_postgres_index.py:117-144 | A writer inserts its row as new, owes its leaf or has logged it if and only if at some moment it had looked for the row in vain. |
| `LogRaces.OneLeafPerRow` | provenex/index/merkle_postgres_index.py:117-179 | When no writer is under way, rows and leaves are in bijection if and only if at no moment two adds of one row had both looked for it in vain with neither having inserted it. |
| `LogRaces.SingleWriterLogsOnce` | provenex/index/merkle_postgres_index.py:8-18 | With at most one writer under way at every moment, rows and leaves end in bijection. |
| `LogRaces.RacingAddsLogTwice` | provenex/index/merkle_postgres_index.py:117-144 | Two adds that both look before either inserts give one row two leaves. |
| `MerkleTransactions.StepRefines` | provenex/index/merkle_postgres_index.py:128-135 | A statement of a transaction, or a writer's move outside it, is one step or none of the machine in which the inherited add happens at once. |
| `MerkleTransactions.Refines` | provenex/index/merkle_postgres_index.py:108-179 | Every interleaving of statements is a run of that machine with the same log and the same races, over the tables the transactions commit. |
| `MerkleTransactions.StatementsKeepLog` | provenex/index/merkle_postgres_index.py:108-179 | Under every interleaving of statements leaf indices are 0..N-1, each leaf is an existing row's signed payload, and the tables are those of a serial run. |
| `MerkleTransactions.StatementsLogOnceIff` | provenex/index/merkle_postgres_index.py:108-179 | And when no writer is under way, rows and leaves are in bijection if and only if there was no race. |
| `MerkleTransactions.CallFinishes` | provenex/index/merkle_postgres_index.py:128-135 | A call that holds its lock runs to its commit by its own statements, which is one step of the coarser machine. |
| `DagSearch.RankedHasNoCycle` | provenex/core/trajectory.py:392-421 | A graph with a numbering that falls along edges has no cycle. |
| `DagSearch.SameEdgesSameVerdict` | provenex/core/trajectory.py:412-414 | Dangling parents and the order of parents do not change whether there is a cycle. |
| `DagSearch.PopKeeps` | provenex/core/trajectory.py:406-411 | Finishing a node keeps the search invariant and ranks it above its known parents. |
| `DagSearch.PushKeeps` | provenex/core/trajectory.py:418-420 | Visiting a white parent keeps the search invariant. |
| `DagSearch.SkipKeeps` | provenex/core/trajectory.py:412-414 | Passing over an unknown or black parent keeps the search invariant. |
| `DagSearch.StackWalk` | provenex/core/trajectory.py:400-420 | The stack from any frame to the top, and the parent reached, are a walk in the graph. |
| `DagSearch.GrayClosesCycle` | provenex/core/trajectory.py:415-417 | A grey parent lies on a cycle, and that cycle is returned. |
| `DagSearch.Explore` | provenex/core/trajectory.py:399-420 | The inner loop terminates with a cycle through the reported id, or with the start and everything below it finished. |
| `DagSearch.FindCycle` | provenex/core/trajectory.py:392-422 | For every order of the ids the search reports a cycle if and only if there is one, through the id it names, and otherwise a topological order exists. |
| `Trajectory.ByIdFrom` | provenex/core/trajectory.py:301-366 | The index knows exactly the ids of receipts, each with the parents of some receipt of that id. |
| `Trajectory.ByIdLast` | provenex/core/trajectory.py:301-366 | Of several receipts with one id the index holds the last one's parents. |
| `Trajectory.IndexById` | provenex/core/trajectory.py:301-366 | The index built by the loop is the specified one. |
| `Trajectory.FindDangling` | provenex/core/trajectory.py:366-371 | The loops collect every dangling reference, in order of receipts and then of parents. |
| `Trajectory.NoDanglingIff` | provenex/core/trajectory.py:366-371 | No reference dangles if and only if every listed parent is a receipt of the set. |
| `Trajectory.RankedReachesRoot` | provenex/core/trajectory.py:392-436 | In a closed ranked graph every node reaches a root by following parents. |
| `Trajectory.EveryReceiptReachesRoot` | provenex/core/trajectory.py:366-456 | Without dangling parents and cycles every receipt reaches a root, so a root exists. |
| `Trajectory.SingleId` | provenex/core/trajectory.py:301-366 | Exactly one trajectory id means a non-empty set whose receipts all share it. |
| `Trajectory.AuditTrajectoryDag` | provenex/core/trajectory.py:266-464 | The audit's result and each of its five checks, early exits included, mean what they are named for; the root check never fails alone. |
| `Session.EmitKeeps` | provenex/core/verify.py:373-383 | Emitting a receipt at the cursor and advancing keeps the session invariant. |
| `Session.StepKeeps` | provenex/integrations/crewai/session.py:174-191 | Every session call keeps: distinct ids, one trajectory, indices behind the cursor, and parents among earlier receipts. |
| `Session.RunKeeps` | provenex/integrations/crewai/session.py:174-470 | So does every run of calls. |
| `Session.StepIndicesRank` | provenex/core/trajectory.py:102-158 | Step indices fall strictly from every receipt to its parents. |
| `Session.SessionPassesAudit` | provenex/core/trajectory.py:266-464 | A session state with a receipt satisfies all five audit conditions. |
| `Session.EveryRunPassesAudit` | provenex/integrations/crewai/session.py:174-470 | Any mix of calls with fresh ids and parents from the session that emitted a receipt passes the audit, and each receipt's step index exceeds its parents'. |
| `Session.CrewSession.VerifyChunks` | provenex/integrations/crewai/session.py:174-191 | Appends the receipt carrying the cursor's position and advances past it. |
| `Session.CrewSession.AdmissionCheck` | provenex/tool_call/admission.py:245-309 | The same, with the admission defaults for step kind and session id. |
| `Session.CrewSession.Advance` | provenex/integrations/crewai/session.py:457-470 | Moves the cursor one step, carrying the parents over unless given. |
| `Session.CrewSession.Audit` | provenex/core/trajectory.py:266-464 | Auditing a session's receipts succeeds exactly when it has emitted any, and reports its trajectory id. |
| `SessionLaws.VerifyChunksWrites` | provenex/core/verify.py:309-383 | The receipt and the next cursor of a verification, field by field. |
| `SessionLaws.AdmissionCheckWrites` | provenex/tool_call/admission.py:245-309 | The receipt and the next cursor of an admission, field by field; the request's session id goes before the cursor's. |
| `SessionLaws.KindDefaults` | provenex/tool_call/admission.py:250-255 | Without a kind of its own an admission is of the cursor's kind, or "tool_call" where that is absent or empty. |
| `SessionLaws.AdvanceMoves` | provenex/integrations/crewai/session.py:457-470 | The cursor after an advance, field by field; no receipt. |
| `RollingHash.DropFirst` | provenex/core/hasher.py:87-91 | The oldest code point contributes its value times B^(W-1) to the direct hash. |
| `RollingHash.RollReduced` | provenex/core/hasher.py:169-170 | The update on residues gives the direct hash of the rolled window, for any base and modulus. |
| `RollingHash.RollingHasher.Prime` | provenex/core/hasher.py:130-149 | Priming accepts exactly lists of the window's length and then holds their direct hash. |
| `RollingHash.RollingHasher.Roll` | provenex/core/hasher.py:151-172 | Rolling fails exactly before priming; otherwise it takes the direct hash of a window to that of the next. |
| `RollingHash.MultipleIsNext` | provenex/core/hasher.py:238 | The position test of the loop holds exactly at the next multiple of the stride. |
| `RollingHash.IterWindowHashes` | provenex/core/hasher.py:175-244 | Bad sizes and strides are rejected; otherwise the windows are the multiples of the stride that fit, in order (one or none for short texts), each with the fingerprint of its text and, as rolling hash, its text read in base 1000003 modulo 2^61-1. |
| `RollingHash.HashOfText` | provenex/core/hasher.py:37-44 | The direct hash is the text read as a number in base 1000003, its code points as digits, modulo 2^61-1. |
| `RollingHash.Slide` | provenex/core/hasher.py:220-244 | The loop for texts longer than the window, by rolling one position at a time. |
| `RollingHash.WindowsCover` | provenex/core/hasher.py:175-244 | With a stride no longer than the window there are no gaps before the last window's end, and fewer than a stride of positions after it. |
| `RetryQueue.RunConserves` | provenex/export/streaming.py:282-367 | Over every run and failure schedule each accepted receipt is delivered, pending or dropped exactly once; delivered then pending is in publication order, and so is dropped then pending; the queue stays within its bound. |
| `RetryQueue.NoDuplicates` | provenex/export/streaming.py:305-339 | What is an ordered selection of receipts published once each holds each once. |
| `RetryQueue.NoOverflowLosesNothing` | provenex/export/streaming.py:282-339 | Nothing has been dropped if and only if delivered then pending is everything published. |
| `RetryQueue.DropsExactlyWhen` | provenex/export/streaming.py:282-339 | A publish drops a receipt exactly when the queue is full and its first downstream call fails, and then the oldest. |
| `RetryQueue.RecoversInOnePublish` | provenex/export/streaming.py:308-330 | Once downstream is back, one publish sends everything pending in order and then its own receipt. |
| `RetryQueue.RunEdgeTriggered` | provenex/export/streaming.py:292-321 | In every run on a queue of length at least 1 without late publishes, every drop has been announced since the last delivery by exactly one full-queue warning; until closing, the flag says so and is set only on a full queue. |
| `RetryQueue.AnnouncesInTimeIff` | provenex/export/streaming.py:292-321 | Without late publishes every drop is so announced, over all schedules and runs, if and only if the queue length is not 0. |
| `RetryQueue.AlwaysAnnouncesIff` | provenex/export/streaming.py:305-356 | With late publishes it is if and only if the queue is unbounded. |
| `RetryQueue.LatePublishUnannounced` | provenex/export/streaming.py:305-356 | For every bound of at least 1: an outage, a close that sends one receipt, and two late publishes drop a receipt without a full-queue warning since that delivery. |
| `RetryQueue.FlagMeansFullIff` | provenex/export/streaming.py:317-321 | The flag means a full queue in every run, closing included, if and only if the queue is unbounded or of length 0. |
| `RetryQueue.EmptyQueueReports` | provenex/export/streaming.py:326-339 | With a queue of length 0 every drop is followed at once by the failure warning of the publish that caused it. |
| `RetryQueue.RetryQueueSink.constructor` | provenex/export/streaming.py:273-280 | A new sink is empty, open and armed. |
| `RetryQueue.RetryQueueSink.Enqueue` | provenex/export/streaming.py:282-303 | Appends, warns on the way into the full state and drops the oldest on overflow. |
| `RetryQueue.RetryQueueSink.Publish` | provenex/export/streaming.py:305-339 | Raises exactly when closed, changing nothing; otherwise the drain loop and the send do the specified step, both warnings included, and the downstream has received what the log says. |
| `RetryQueue.RetryQueueSink.Close` | provenex/export/streaming.py:345-367 | Closes, drains until the first failure, and warns with the number pending if any are. |
| `RetryLaws.CloseSends` | provenex/export/streaming.py:345-367 | If downstream takes the first n pending receipts and no more, close sends exactly those in order, keeps the rest, and warns with their number if there are any. |
| `RetryLaws.HealthyClose` | provenex/export/streaming.py:345-367 | With a healthy downstream close leaves nothing behind and gives no warning. |
| `RetryLaws.PublishWhilePending` | provenex/export/streaming.py:308-325 | A publish of which only n < pending receipts go out: what is sent, kept, dropped and said, event by event. |
| `RetryLaws.PublishAlone` | provenex/export/streaming.py:326-339 | A publish that empties the queue or finds it empty: what becomes of its own receipt, event by event. |
| `RetryLaws.LatePublishes` | provenex/export/streaming.py:305-339 | A publish that passed the closed check does the same whether the sink is closed by then or not. |
| `Policy.ResolvePath` | provenex/policy/yaml_evaluator.py:418-469 | Follows the segments from the root; missing and unknown roots are told apart. |
| `Policy.WhenMatches` | provenex/policy/yaml_evaluator.py:499-516 | A rule applies exactly when every entry resolves and matches. |
| `Policy.NativeYamlEvaluator.Evaluate` | provenex/policy/yaml_evaluator.py:792-827 | The nested loops decide as specified: stop at the first rule violated or raising, and name the rules that applied. |
| `Policy.TraceOfDecision` | provenex/policy/yaml_evaluator.py:800-827 | The trace is the matching rules in file order up to and including the first violated one, which a denial names last; an allowing list has none. |
| `Policy.AllowsIffAllPass` | provenex/policy/yaml_evaluator.py:800-827 | A list allows if and only if no rule of it, judged alone, is violated or raises. |
| `Policy.ConcatDecision` | provenex/policy/yaml_evaluator.py:800-827 | The decision of two lists in a row, trace and exceptions included, from the decisions of both. |
| `Policy.ConcatAllowsIffBoth` | provenex/policy/yaml_evaluator.py:800-827 | Two lists in a row allow if and only if both do. |
| `Policy.OrderIrrelevant` | provenex/policy/yaml_evaluator.py:800-827 | Lists with the same rules in any order allow the same. |
| `Policy.WellRootedDecides` | provenex/policy/yaml_evaluator.py:418-469 | If every path has a known root, evaluation always reaches a decision. |
| `Policy.WellRootedOrderIrrelevant` | provenex/policy/yaml_evaluator.py:800-827 | Lists of such rules with the same rules in any order both reach a decision, and both allow or both deny. |
| `Policy.OrderMattersWhenRaising` | provenex/policy/yaml_evaluator.py:186-211 | For any such name two accepted rules deny in one order and raise in the other. |
| `Policy.DenyingUnknownOnlyRemoves` | provenex/policy/yaml_evaluator.py:533-537 | What is allowed while missing metadata denies is allowed, with the same trace, while it does not. |
| `Policy.SessionIdIrrelevant` | provenex/policy/evaluator.py:150-158 | Requests that differ in the session id get the same decision and trace from rules that name other request fields only. |
| `Policy.SessionBlindIff` | provenex/policy/evaluator.py:150-158 | A path resolves independently of the session id, for every request and every attribute lookup, if and only if it leads elsewhere or into another named field of the request. |
| `Policy.SessionIdDecides` | provenex/policy/evaluator.py:150-158 | For any two session ids an accepted rule allows one and denies the other. |
| `Policy.OnlyFirstOperatorCounts` | provenex/policy/yaml_evaluator.py:543-624 | A constraint decides like the one with its first recognised operator alone. |
| `Policy.MembershipOperatorsOpposed` | provenex/policy/yaml_evaluator.py:545-554 | `in` and `not_in` are opposites, and a listed value is in. |
| `Policy.PyEqSymmetric` | provenex/policy/yaml_evaluator.py:514 | Equality of values, with truth values equal to 0 and 1, is symmetric at every depth. |
| `PolicyLaws.ChunkField` | provenex/policy/yaml_evaluator.py:424-439 | A rule on an attribute of the chunk decides by the attribute's value. |
| `PolicyLaws.ChunkEntry` | provenex/policy/yaml_evaluator.py:424-439 | A rule on a key of the chunk's metadata decides by the value there, or by the default for unknown metadata. |
| `PolicyLaws.RequestFieldIs` | provenex/policy/yaml_evaluator.py:454-465 | A rule on a field of the request decides by that field's value, null where absent. |
| `PolicyLaws.CallerEntry` | provenex/policy/yaml_evaluator.py:454-465 | A rule on a key of the caller decides by the value there, or by the default. |
| `PolicyLaws.InDecides` | provenex/policy/yaml_evaluator.py:545-549 | `in` allows exactly values equal to a listed one. |
| `PolicyLaws.NotInDecides` | provenex/policy/yaml_evaluator.py:550-554 | `not_in` allows exactly values equal to no listed one. |
| `PolicyLaws.LengthDecides` | provenex/policy/yaml_evaluator.py:616-623 | `length_at_most` allows exactly strings of at most that length. |
| `PolicyLaws.AgeDecides` | provenex/policy/yaml_evaluator.py:555-577 | `not_older_than` allows exactly readable time stamps at most that long before a readable request time. |
| `PolicyLaws.PatternDecides` | provenex/policy/yaml_evaluator.py:578-615 | The pattern operators allow exactly strings of at most 65536 characters that match, or do not match. |
| `PolicyLaws.ScopeOnField` | provenex/policy/yaml_evaluator.py:499-516 | A scope admits by equality or by a list; admitted, the rule decides as without it, and otherwise it allows and leaves no trace. |
| `PolicyLaws.ScopeOnMissing` | provenex/policy/yaml_evaluator.py:499-502 | A scope on metadata that is not there never applies, whatever the default. |
| `PolicyLaws.RuleDecides` | provenex/policy/yaml_evaluator.py:800-827 | A rule allows if a scope entry does not apply or all it asks is met, and is in the trace if all scope entries apply. |
| `PolicyLaws.RulesAcceptedIff` | provenex/policy/yaml_evaluator.py:186-338 | Which rule lists validation accepts: names, paths, scope operators, and known operators with arguments of the right kind. |

## Left out

- SQL, database drivers, connection pools, threads and files: tables are maps, a SQLite call is one step, and a Postgres transaction is one step per statement.
- Crashes between the two commits of an add that logs a leaf.
- The Postgres back ends are state machines over values, not classes: their subject is the interleaving of statements, not update in place.
- In `MerkleTransactions` an add whose table transaction rolls back counts as under way for good, so the results about runs that end with no writer under way do not speak of it.
- The in-memory tree of the Postgres back end, and proofs from it: by its documentation it is right for one writer only.
- Inheritance: the base index is a component of the one with the log.
- SHA-256, HMAC and Ed25519 internals; receipt signing and JSON canonicalisation.
- YAML loading, globs, ISO-8601 and durations: parsers and matchers are parameters. Floating-point and non-string keys in YAML values are not modelled, and `getattr` on names that are no dataclass field is a parameter.
- Which of several validation errors a policy file raises, `on_violation`, unknown keys, and the hashes of a policy and of its inputs: the model starts from rules that were accepted.
- Surrogate code points in text: Dafny's characters exclude them, and UTF-8 encoding of them raises.
- The retry queue's lock (calls are steps in the order in which they take it), warning texts, and exceptions that are not `Exception`; a downstream publish that raises after delivering.
- Kept and blocked chunks in `verify_chunks` and the decisions of `admission_check`: only the receipt and the cursor matter to the audit.
- Messages of checks and findings.
- The rejection of a fingerprint under a second document that provenex/index/base.py:92-94 asks for: the back ends do not implement it.
- Unicode normalisation, the Bloom-filter index, receipt summaries, command-line aggregation, OCSF mapping, the tool-call evaluator (the same loop), export sinks other than the retry queue, framework wrappers.
