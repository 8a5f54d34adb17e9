# Verification of the learning and evidence core

Dafny models of five parts of the repository, with proofs of what each promises. Code that updates
state is modelled as classes, arrays and loops, and every such method is proved against a
specification function; the properties are then lemmas about those functions, for all inputs, runs
and histories. `dafny verify dfyconfig.toml` checks everything.

**Protocol evidence** (`EvidenceCodec`, `EvidenceLayout`, `CrashTail`, `EvidenceDigest`, `EvidenceStore`,
`Confidence`, `LedgerMachine`, `TrustBySize`, `EvidenceLedger`, `Cursor`). The append-only evidence file is a byte sequence. The codec's reader is
proved to undo the writer over every byte prefix. The ledger with its size-trusted index is a state
machine whose steps are appends, appends cut off after any number of bytes, whole-record appends by
another writer, and reopening; every run refines a plain list of records. The class is proved to move
as that machine does. The cursor reducer is a class over the firehose state with run theorems.

**Neural layout, expansion and training** (`NeuralLayout`, `NeuralRoles`, `NeuralExpansion`,
`NeuralGraph`, `NeuralMigration`, `LinearAlgebra`, `Backprop`, `TrainingSpec`, `Training`). Flat
row-major arrays addressed through computed offsets; the transactional expansion that relocates each
parameter by role; and back-propagation, proved to compute forward-mode derivatives and then to be
applied as one simultaneous update.

**Replay** (`ReplaySpec`, `ReplayLaws`, `ReplayReport`, `Withdrawal`, `Replay`). The loop that merges the observation
ledger with the expansion history is proved to be a fold over one event list, which gives the exact
success condition and makes withdrawal a theorem. Each counter of its report is a count on the ledger.

**CBOR pre-scan** (`CborScan`, `CborMeaning`). The explicit-stack scanner accepts exactly the encodings
of one bounded item of the recursive grammar, which is then given by its bytes.

**Recall, context selection, tokens** (`Ranking`, `Recall`, `RecallMeaning`, `RecallLaws`,
`EpisodicMemory`, `ContextItems`, `ContextBudget`, `Context`, `ContextMeaning`, `ContextLaws`, `Tokenizer`). Scoring, total orders, greedy
selection under several budgets, and the schema-1 scanner with its bounded collector.

`Bytes`, `Options` and `Sequences` hold shared definitions.

Floating point is `real`; `tanh`, the sigmoid and `ln` are arbitrary functions, so nothing depends on
their values beyond the slope rule tanh' = 1 − tanh². Sizes and counters are unbounded unless a
machine bound is written out.

## Where the code differs from its documentation

- A field of more than 16 MiB is written without complaint (protocol/protocol.cpp:15-19), but the
  reader refuses it (protocol/protocol.cpp:33), so one such append makes every later scan throw.
  `LedgerMachine.AddedStaysReadableIff` gives the exact condition,
  `LedgerMachine.OversizeIsAddedAndBreaks` a record that an empty ledger adds and then cannot read. An
  instance that does not trust its index throws from then on (`BrokenFileThrows`), but the one that
  wrote the record never notices and goes on adding (`AddedBlindsIff`, `BlindStaysBlind`).
- The index is trusted while the file has the size last seen (protocol/protocol.hpp:235-239). While an
  instance is idle, others may repair a torn tail, append, crash and reopen.
  `TrustBySize.OthersRunIff` gives the exact condition over all their runs: the idle instance's trust
  stays justified, and its next accepted append loses nothing, if and only if they leave a file of
  another size or no new record. Otherwise that append drops all their new records
  (`NextAppendIff`). `ExactFillExample` and `CrashFillExample` are runs in which it happens, the second
  with a crash one byte into the other's next append.
- A crash before the first byte of the first record reaches the file leaves an empty file, which the
  constructor refuses (protocol/protocol.cpp:449-453): `LedgerMachine.ReopensAfterCrashIff`, with
  `EmptyFileAfterCrash` as the instance.
- The header says that bytes which are present but wrong still throw (protocol/protocol.hpp:241-244).
  The reader checks the magic number, the two tags and each size only once all their bytes, and for
  the tags the whole header, are there, so a wrong tail that stops earlier is reported as torn and
  dropped at the next append. `CrashTail.TornFileIsCrashedIff` says exactly which torn files a crash
  of a writer leaves: those whose tail passes `CleanTail`, which compares the magic bytes and tags
  present, checks sequence, time and confidence as far as they are present, and asks whether a partial
  size can still become one the writer writes. It holds for the ledger's own append (`APPEND`) and for
  a writer of any readable record (`READABLE`). `CrashTail.WrongTagIsTorn` gives tails that fail it,
  and `LedgerMachine.RepairDropsRemainsIff` says what repair then drops.
- The header says entries are still compared by value at replay (protocol/protocol.hpp:189); the
  code compares digests only. `EvidenceStore.ReplayByValueIff` says when that makes no difference:
  exactly when no two different acceptable records of the list share a digest. Records of the same
  fact always share one (`SameFactIsDuplicate`); `LedgerMachine.SequenceIsNotCompared` is such a pair.

## Model

| member | source | states |
|---|---|---|
| EvidenceCodec.ReadFieldOfEncode | protocol/protocol.cpp:15-41 | reading a written field gives the field back and leaves what follows, except that a field over 16 MiB is corruption |
| EvidenceCodec.ReadFieldSound | protocol/protocol.cpp:26-41 | every field the reader accepts is exactly what the writer would have written, and within the limit |
| EvidenceCodec.ReadFieldOfPrefix | protocol/protocol.cpp:26-41 | cutting the bytes inside a field makes it torn, never corrupt; cutting after it changes nothing |
| EvidenceCodec.ReadRecordOfEncode | protocol/protocol.cpp:497-511 | decoding an encoded record gives the record exactly when its fields are within the limit, otherwise corruption |
| EvidenceCodec.ReadRecordSound | protocol/protocol.cpp:535-564 | every record the reader accepts is the encoding of what it returns |
| EvidenceCodec.ReadRecordOfPrefix | protocol/protocol.cpp:535-568 | a record cut anywhere before its end is torn; cut later it reads the same |
| EvidenceLayout.RecordLayout | protocol/protocol.cpp:497-511 | where every part of a written record lies: the letters EPTA, two tags, three little-endian words, and the four texts each after its length; nothing else |
| EvidenceCodec.CompleteIsExact | protocol/protocol.cpp:529-572 | the count of complete records is the largest number whose encodings end within the cut |
| EvidenceCodec.ScanOfPrefix | protocol/protocol.cpp:529-572 | for every list of readable records and every cut point: no corruption, exactly the wholly contained records are visited, the good end is the end of the last, torn exactly when bytes remain after it |
| EvidenceCodec.ScanSound | protocol/protocol.cpp:529-572 | for arbitrary bytes: what lies before the good end is the encoding of exactly the visited records |
| EvidenceCodec.ScanAfterRecords | protocol/protocol.cpp:529-572 | scanning whole records followed by anything visits those records and then scans the rest |
| EvidenceCodec.ScanRoundTrip | protocol/protocol.cpp:497-572 | a file of readable records reads back as those records, whole |
| EvidenceCodec.ReadableAfterAppendIff | protocol/protocol.cpp:15-41 | a readable file stays readable after one more record exactly when that record's fields are within the limit |
| EvidenceCodec.OversizePayloadBreaksTheFile | protocol/protocol.cpp:15-41 | the bytes written for a record with a payload one byte over the limit read back as corruption |
| EvidenceCodec.ShortWrongTailIsTorn | protocol/protocol.cpp:538-544 | any one to three bytes after whole records read as a torn tail, clean or not |
| CrashTail.SmallestSizeFits | protocol/protocol.cpp:15-33 | when the smallest size that begins with the given bytes is permitted, it is a size the writer writes and does begin with them |
| CrashTail.RemainsIff | protocol/protocol.cpp:471-511 | for all bytes and any writer, the ledger's append included: they are the start of some record it writes, cut short, exactly when they pass the clean-tail test |
| CrashTail.ReadableRemainsIff | protocol/protocol.cpp:21-41 | for records the reader can read back the same, and such remains are always torn, never corrupt |
| CrashTail.TornFileIsCrashedIff | protocol/protocol.hpp:241-244 | a file that scans as torn is whole readable records followed by a writer's crash remains exactly when the bytes past its good end are clean; otherwise wrong bytes went without complaint |
| CrashTail.WrongTagIsTorn | protocol/protocol.cpp:545-558 | a kind tag no record has, right after the magic number, scans as torn although no crash leaves it |
| EvidenceCodec.Scan | protocol/protocol.cpp:529-572 | the reading loop over the file visits, ends and classifies as specified for every byte string |
| EvidenceDigest.StepIsInjective | protocol/protocol.cpp:403-415 | with the state or the byte equal, one step of either lane gives equal results only for equal state and byte, modulo 2^64 |
| EvidenceDigest.MultiplyIsInjective | protocol/protocol.cpp:407-408 | multiplying by the FNV prime and adding a constant loses nothing modulo 2^64 |
| EvidenceDigest.LanesKeepDifference | protocol/protocol.cpp:403-415 | different lane states stay different over any common bytes |
| EvidenceDigest.OneByteSeparatesLanes | protocol/protocol.cpp:403-415 | streams of equal length differing in one byte end in different states of both lanes |
| EvidenceDigest.DigestStreamIsInjective | protocol/protocol.cpp:398-424 | the mixed byte stream is equal for two records exactly when kind, verification, source, event type, subject and payload are |
| EvidenceDigest.OneByteSeparatesDigests | protocol/protocol.cpp:398-424 | records of equal field lengths that differ in one byte differ in both lanes of the digest |
| EvidenceLayout.DigestIs | protocol/protocol.cpp:398-424 | the digest is both lanes, from their two starting words, over the length-prefixed tags and texts in this order |
| EvidenceLayout.LaneVectors | protocol/protocol.cpp:401-415 | one byte through each lane: the published FNV-1a value of the letter a, and the second lane's value |
| EvidenceStore.ReplayIsIdempotent | protocol/protocol.cpp:443-447 | replaying the entries a store kept reproduces them unchanged |
| EvidenceStore.StoreKeepsFirstOccurrences | protocol/protocol.cpp:430-441 | after any feed the store holds exactly the acceptable records whose digest appears for the first time, in order |
| EvidenceStore.DedupAgreesIff | protocol/protocol.hpp:187-189 | refusing by digest and refusing by value agree on an acceptable record exactly when the store has that record or nothing with its digest |
| EvidenceStore.SameFactIsDuplicate | protocol/protocol.cpp:398-438 | a record stating a stored fact is refused, however its sequence, time or confidence differ |
| EvidenceStore.ReplayByValueIff | protocol/protocol.hpp:187-189 | replay by digest keeps what replay by value would exactly when no two different acceptable records of the list share a digest |
| EvidenceStore.InsertAllKeeps | protocol/protocol.cpp:430-441 | stored records stay acceptable and pairwise distinct by digest |
| EvidenceStore.InsertAllOfDistinct | protocol/protocol.cpp:443-447 | acceptable records with mutually new digests are all kept, in order |
| EvidenceStore.Store.Append | protocol/protocol.cpp:430-441 | the entries and index move as specified; the result says whether the record was acceptable and new |
| EvidenceStore.Store.Contains | protocol/protocol.cpp:426-428 | true exactly when some stored entry has the record's digest |
| EvidenceStore.Store.Replay | protocol/protocol.cpp:443-447 | the rebuilt store holds what feeding the list in order leaves |
| Confidence.InRangeIff | protocol/protocol.cpp:434-435 | the test on bit patterns is exactly the test that the encoded double, decoded from sign, exponent and mantissa, is finite and from 0 to 1 |
| Confidence.AcceptableIff | protocol/protocol.cpp:430-437 | a record is acceptable exactly when its four texts are non-empty, it has a sequence or a time, and its confidence is a finite number from 0 to 1 |
| LedgerMachine.RefreshAgrees | protocol/protocol.cpp:457-469 | after a refresh the index is trusted and is exactly the digest set of a full rescan |
| LedgerMachine.ThrowingRefreshLeaves | protocol/protocol.cpp:457-469 | a refresh that throws leaves the records before the corruption in the index, the trusted size as it was, and an index that is not trusted |
| LedgerMachine.RepairKeepsRecords | protocol/protocol.cpp:482-491 | repair cuts exactly the torn bytes: what is left encodes exactly the readable records |
| LedgerMachine.RepairDropsRemainsIff | protocol/protocol.cpp:482-491 | repair removes exactly the bytes past the good end, and they are a writer's crash remains exactly when they are clean |
| LedgerMachine.AppendRefines | protocol/protocol.cpp:471-527 | an append succeeds exactly when the record is acceptable and its digest absent; then the file encodes the old complete records followed by it; otherwise no byte changes; the index invariant holds again |
| LedgerMachine.CutOffRefines | protocol/protocol.cpp:497-523 | an append cut off after any number of bytes loses no complete record, and shows the new one exactly when all of it arrived |
| LedgerMachine.ForeignRefines | protocol/protocol.hpp:235-239 | whole records written by another writer to an untorn file become readable and are never trusted unseen |
| LedgerMachine.RunRefines | protocol/protocol.cpp:457-572 | over every interleaving of appends, cut-off appends, foreign records and reopening, the readable entries are those of the plain list, none is lost, and the index invariant holds |
| LedgerMachine.OwnRunsStayDistinct | protocol/protocol.cpp:471-527 | without another writer, entries of every run are acceptable and pairwise distinct |
| LedgerMachine.LedgerEqualsStore | protocol/protocol.cpp:430-441 | any run of appends leaves the durable entries equal to the in-memory store's entries |
| LedgerMachine.AddedStaysReadableIff | protocol/protocol.cpp:15-41 | an accepted append leaves the file readable exactly when its fields are within the reader's limit |
| LedgerMachine.OversizeIsAddedAndBreaks | protocol/protocol.cpp:15-41 | an empty ledger adds a record with a payload one byte over the limit and can then not be scanned |
| LedgerMachine.SequenceIsNotCompared | protocol/protocol.hpp:187-189 | two records that differ only in sequence: the second is acceptable and not stored, yet refused |
| LedgerMachine.AddedBlindsIff | protocol/protocol.cpp:457-463 | an accepted append leaves its instance trusting an index over an unreadable file exactly when a field is over the reader's limit |
| LedgerMachine.BlindStaysBlind | protocol/protocol.cpp:457-527 | such an instance never throws: it goes on adding records it does not know and refusing those it does, and the file stays unreadable |
| EvidenceCodec.BrokenStaysBroken | protocol/protocol.cpp:529-572 | no bytes added at the end make a corrupt file readable again |
| LedgerMachine.BrokenFileThrows | protocol/protocol.cpp:457-481 | on a corrupt file an append by an instance that does not trust its index throws and changes no byte |
| LedgerMachine.ReopensAfterCrashIff | protocol/protocol.cpp:449-453 | after a crash during an append the file opens again exactly when a complete record or a byte of the new one is in it |
| LedgerMachine.EmptyFileAfterCrash | protocol/protocol.cpp:449-453 | a new ledger whose first append crashes before its first byte leaves a file it refuses to open |
| TrustBySize.TrustIff | protocol/protocol.hpp:235-239 | for any file that still begins with the indexed records, trust is justified exactly when the size has changed or the file is readable with the very same records |
| TrustBySize.JustifiedAppend | protocol/protocol.cpp:457-527 | where trust is justified the next append adds exactly its record and restores the whole invariant, even if the file has shrunk meanwhile |
| TrustBySize.NextAppendIff | protocol/protocol.cpp:457-527 | the next accepted append keeps all records in the file exactly when the change is noticed by size or brought no record; otherwise it leaves the indexed records and its own |
| TrustBySize.OthersRunIff | protocol/protocol.cpp:457-527 | over every run of other instances, in any state, with crashes, foreign records and reopening, the idle instance's trust is justified and its next accepted append loses nothing exactly when they leave another size or no new record |
| TrustBySize.CutOffFile | protocol/protocol.cpp:482-523 | an append cut off after n bytes leaves the complete records and those bytes |
| TrustBySize.Story | protocol/protocol.cpp:457-527 | whole runs in which the records of an instance that repairs, appends and perhaps crashes are dropped by the idle one |
| TrustBySize.ExactFillExample | protocol/protocol.cpp:457-527 | concrete records that fill the dropped tail exactly |
| TrustBySize.CrashFillExample | protocol/protocol.cpp:457-527 | concrete records one byte short of it, completed by a crash one byte into the next append |
| EvidenceLedger.EvidenceLedger.Open | protocol/protocol.cpp:449-453 | opening succeeds exactly unless the file exists and is empty, and starts with no trusted index |
| EvidenceLedger.EvidenceLedger.RefreshIndex | protocol/protocol.cpp:457-469 | the object moves as the machine's refresh and reports whether the scan threw |
| EvidenceLedger.EvidenceLedger.Append | protocol/protocol.cpp:471-527 | the object and its file move as the machine's append; under the invariant the readable entries gain exactly the accepted record |
| EvidenceLedger.EvidenceLedger.ReadEntries | protocol/protocol.cpp:574-585 | the complete records in order, or nothing when the scan throws |
| Cursor.RememberThenFind | protocol/protocol.cpp:60-71 | remembering a revision changes what is found for its repository and for no other |
| Cursor.EventFacts | protocol/protocol.cpp:632-704 | one event: the sequence never moves back; while paused only a verified resynchronisation changes anything; an event that is not accepted changes nothing but the pause |
| Cursor.AnswerIs | protocol/protocol.cpp:632-656 | each of the six answers, if and only if the event's and the cursor's fields satisfy its condition |
| Cursor.AnswerLeaves | protocol/protocol.cpp:632-670 | a gap leaves the cursor paused and otherwise as it was, an accepted position sets sequence, repository and revision, any other answer changes nothing |
| Cursor.PausesIff | protocol/protocol.cpp:643-646 | a running cursor is paused exactly by a well-formed contiguous event, not the first, whose number is greater than the next expected one |
| Cursor.PausedSinceKeeps | protocol/protocol.cpp:640-704 | over every run, from such an event on nothing but the pause changes until an acceptable resynchronisation |
| Cursor.PausedIff | protocol/protocol.cpp:632-704 | a run from the empty cursor ends paused if and only if some event skipped a number while it was running and no acceptable resynchronisation came later |
| Cursor.TidIff | protocol/protocol.cpp:276-279 | a timestamp identifier is thirteen characters of the sortable base-32 alphabet |
| Cursor.DidLengths | protocol/protocol.cpp:195-222 | for permitted characters, the identifier of a method is accepted exactly when it is non-empty, ends in no colon and the whole is within 2048 bytes |
| Cursor.PausedUntilResync | protocol/protocol.cpp:640-704 | a paused run without an acceptable resynchronisation changes no field |
| Cursor.RunFacts | protocol/protocol.cpp:632-704 | over every run the sequence is monotone and the state stays coherent |
| Cursor.RevisionIsTheLatest | protocol/protocol.cpp:651-704 | over every run repositories stay unique and the revision found is that of the latest accepted stream event or resynchronisation naming the repository |
| Cursor.ContiguousRunsAreGapFree | protocol/protocol.cpp:632-649 | on contiguous streams the accepted sequences are consecutive since the start or the last resynchronisation, and the cursor stands at the last |
| Cursor.PlannedResyncResumes | protocol/protocol.cpp:681-704 | the plan names the cursor's repository and sequence; following it succeeds exactly for a verified, well-formed revision not before that sequence, the cursor then stands at it, and the stream resumes at the next number only |
| Cursor.Cursor.RememberRevision | protocol/protocol.cpp:60-71 | the search-and-update loop changes the remembered revisions as specified and nothing else |
| Cursor.Cursor.ObserveSequence | protocol/protocol.cpp:632-649 | result and new state for every state and sequence, as `AnswerIs`, `AnswerLeaves` and `PausesIff` give them |
| Cursor.Cursor.ObserveStream | protocol/protocol.cpp:651-670 | result and new state, including position and revision, for every stream event, as `AnswerIs`, `AnswerLeaves` and `PausesIff` give them |
| Cursor.Cursor.CompleteResync | protocol/protocol.cpp:692-704 | commits exactly the permitted resynchronisations and otherwise changes nothing |
| NeuralLayout.WeightIndexInRange | src/core/internal.h:194-198 | each coordinate's index lies in its layer's block and in the array |
| NeuralLayout.WeightIndexIsInjective | src/core/internal.h:194-198 | different coordinates never share an index |
| NeuralLayout.LocateIsInverse | src/core/internal.h:194-198 | every index of the weight array is some coordinate's, so indexing is a bijection |
| NeuralLayout.WeightIndexKeepsOrder | src/core/internal.h:194-198 | the flat order of weights is by layer, then output unit, then input unit |
| NeuralLayout.BiasIndexInRange | src/core/internal.h:200-203 | bias indices lie in the array |
| NeuralLayout.BiasIndexIsInjective | src/core/internal.h:200-203 | different units never share a bias |
| NeuralLayout.BiasIndexIsOnto | src/core/internal.h:200-203 | every bias belongs to a unit |
| NeuralLayout.OffsetsIncrease | src/core/neural_layout.c:69-78 | layer blocks of weights, biases and activations follow one another without overlap |
| NeuralLayout.SizesAreSmall | src/core/neural_layout.c:53-79 | for every accepted shape the accumulated sizes stay far below the machine word |
| NeuralLayout.GuardsNeverFire | src/core/neural_layout.c:59-67 | so none of the overflow guards of the loop can fire |
| NeuralLayout.WidthSlotsValid | src/core/neural_layout.c:36-45 | the slot loop accepts exactly positive, limited widths up to the layer count and zeros after it |
| NeuralLayout.FillLayout | src/core/neural_layout.c:47-79 | the accumulation loop gives the closed-form offsets and counts |
| NeuralLayout.BuildLayout | src/core/neural_layout.c:19-91 | refuses exactly malformed or oversized architectures, and otherwise returns the closed-form layout |
| NeuralLayout.AcceptsIff | src/core/neural_layout.c:19-91 | the shape and the limits of an accepted architecture, its parameters counted as the sum over layers of (inputs + 1) times outputs |
| NeuralLayout.ParametersAreTheSum | src/core/neural_layout.c:93-102 | weights plus biases equal the sum over layers of (inputs + 1) times outputs |
| NeuralLayout.ParameterCount | src/core/neural_layout.c:93-102 | the closed-form sum, within the limit, and zero exactly for refused architectures |
| NeuralRoles.Validate | src/core/neural_migration.c:59-110 | the checking loop accepts exactly the valid migrations: this version, a seed, two accepted architectures, the source contained in the target, growth in some dimension |
| NeuralRoles.ContainsIff | src/core/neural_migration.c:77-107 | the compared dimensions are exactly what relocation needs: the source is contained in the target just when every learned weight has a valid place and no two share one |
| NeuralRoles.ValidMigrationIff | src/core/neural_migration.c:59-110 | a migration is valid exactly when it has this version and a seed, two accepted and different architectures, and a place of its own for every learned weight |
| NeuralRoles.MigrationGrows | src/core/neural_migration.c:84-109 | each valid migration strictly grows embedding width plus layer count plus summed widths, under a fixed bound |
| NeuralRoles.ChainIsBounded | src/core/neural_migration.c:59-110 | hence every chain of valid migrations has a fixed maximal length |
| NeuralRoles.TargetRoleIsValid | src/core/neural_migration.c:118-220 | each learned weight has a valid place in the target, from which its coordinate is recovered |
| NeuralRoles.SourceRoleIsValid | src/core/neural_migration.c:118-220 | each continued target weight is the place of the source weight it continues |
| NeuralRoles.OriginIff | src/core/neural_migration.c:118-220 | a flat index continues a weight exactly when it is that weight's place: hidden and output copies never collide |
| NeuralRoles.UnitRoleIsValid | src/core/neural_migration.c:128-136 | each learned bias has a valid place, from which its unit is recovered |
| NeuralRoles.SourceUnitIsValid | src/core/neural_migration.c:128-136 | each continued target bias is the place of the source bias it continues |
| NeuralRoles.BiasOriginIff | src/core/neural_migration.c:197-204 | a bias index continues a bias exactly when it is that bias's place |
| NeuralRoles.RolesKeepTheirMeaning | src/core/neural_migration.c:118-220 | a weight and its unit's bias move to the unit of the same number, output to output and hidden within its layer, and the weight still reads the same unit or, in the first layer, the same entry of the pair of lengthened embeddings |
| NeuralRoles.StreamIsNonZero | src/core/neural_migration.c:23-45 | the xorshift state is non-zero over the whole stream, for every seed and version |
| NeuralRoles.MixesAreInjective | src/core/neural_migration.c:23-30 | none of the three shift-and-xor mixes takes two words to one |
| NeuralRoles.XorShiftIsInjective | src/core/neural_migration.c:23-30 | so no step of the generator merges two states |
| NeuralRoles.StreamsEqualIff | src/core/neural_migration.c:38-45 | two valid migrations have equal generator states after any number of draws exactly when their seeds are equal, or are the one seed whose mixed word is zero and the one seed whose mixed word is its replacement |
| NeuralRoles.DrawIsInRange | src/core/neural_migration.c:32-36 | every draw lies in [-1, 1] |
| NeuralRoles.SeedOneStream | src/core/neural_migration.c:23-45 | the first three states and two draws of seed 1 |
| NeuralExpansion.ExpandKeepsWeight | src/core/neural_migration.c:118-220 | every old weight and its importance are found unchanged at the role coordinate |
| NeuralExpansion.ExpandKeepsBias | src/core/neural_migration.c:128-136 | every old bias and its importance are found unchanged at the role unit |
| NeuralExpansion.NewWeightsAreDraws | src/core/neural_migration.c:255-264 | a new weight is 0.12 times the draw numbered by its flat index, with zero importance; the draws are those of the seed (`StreamsEqualIff`) |
| NeuralExpansion.NewBiasesAreZero | src/core/neural_migration.c:260-267 | new biases and their importances are zero |
| NeuralExpansion.EveryDrawIsUsedOnce | src/core/neural_migration.c:285-305 | every new dimension's draw number lies after the weights' and within the nodes' share, and each number there belongs to exactly one dimension of one node |
| NeuralExpansion.NewEmbeddingsAreDraws | src/core/neural_migration.c:283-306 | in the expanded graph, 0.05 times draw k after the weights' is the value of that one new dimension, with zero importance |
| NeuralExpansion.ChainKeepsParameters | src/core/neural_migration.c:222-363 | across any chain each weight and bias stays at its composed role |
| NeuralExpansion.ChainKeepsEmbeddings | src/core/neural_migration.c:283-306 | across any chain each embedding value stays at its dimension |
| NeuralExpansion.ChainKeepsHistory | src/core/neural_migration.c:319-357 | the history grows by exactly the chain, stays contiguous with non-decreasing boundaries, and the graph's own generator is untouched |
| NeuralExpansion.CanExpandAllIff | src/core/neural_migration.c:227-240 | a graph accepts a chain exactly when its first step is acceptable and the chain is coherent in itself |
| NeuralMigration.CopyHiddenLayer | src/core/neural_migration.c:118-186 | the in-place loops copy exactly this layer's parameters to their places, disturbing nothing copied before |
| NeuralMigration.CopyOutputLayer | src/core/neural_migration.c:188-220 | the output layer follows the last hidden layer wherever the target puts it |
| NeuralMigration.DrawNetwork | src/core/neural_migration.c:248-267 | the larger network starts with every weight drawn in flat order and all else zero |
| NeuralMigration.GrowVectors | src/core/neural_migration.c:285-310 | one node's vectors keep their old dimensions and take the next draws for the new ones |
| NeuralMigration.CopyNetwork | src/core/neural_migration.c:118-220 | all copy loops together leave exactly the expanded parameters |
| NeuralMigration.Prepare | src/core/neural_migration.c:242-328 | everything is allocated and filled without touching the graph, or nothing when an allocation fails |
| NeuralMigration.Commit | src/core/neural_migration.c:335-362 | the swap leaves exactly the expanded graph |
| NeuralMigration.ExpandNeural | src/core/neural_migration.c:222-363 | refuses exactly invalid, foreign or backward migrations, fails exactly when an allocation fails, otherwise yields the expanded graph; on every failure the graph is exactly what it was |
| LinearAlgebra.Adjoint | src/core/neural.c:218-227 | pulling deltas back through a layer's weights is the adjoint of applying them |
| Backprop.DualValues | src/core/neural.c:26-46 | the forward-mode run computes the ordinary activations in its value part |
| Backprop.OutputIsSigmoid | src/core/neural.c:26-46 | the network's output is the sigmoid, and not the tanh of the hidden layers, of the last sum as the forward-mode run computes it |
| Backprop.GradientIsAdjoint | src/core/neural.c:201-242 | for every shape and depth, the back-propagated gradient paired with any direction is (output − expected) times the forward-mode derivative of the pre-sigmoid output |
| Backprop.GradientIsDerivative | src/core/neural.c:201-276 | in particular each single weight's, bias's and input's gradient is (output − expected) times its derivative |
| TrainingSpec.TrainingDescends | src/core/neural.c:262-270 | each weight moves by its effective rate times (sigmoid of the last sum − expected) times the derivative in that weight, and its importance grows by the size of that product when plasticity is on |
| TrainingSpec.BiasDescends | src/core/neural.c:272-274 | the same of each bias and its importance |
| TrainingSpec.EmbeddingDescends | src/core/neural.c:278-287 | the same of each embedding dimension of both nodes and its importance; one node taken twice makes both moves, the second at the rate its importance has after the first |
| TrainingSpec.TopIsError | src/core/neural.c:201-206 | the delta of the output is the sigmoid of the last sum less the expected value |
| TrainingSpec.LossIsClippedCrossEntropy | src/core/neural.c:195-199 | the loss is the cross-entropy of the output, or of the nearer end of [1e-6, 1 − 1e-6] outside it |
| TrainingSpec.TotalProtectedIs | src/core/neural.c:256-293 | the protected count of a step is the number of weights, biases and embedding half-updates over the threshold, a node taken twice meeting its grown importances the second time |
| TrainingSpec.TrainedWeightAt | src/core/neural.c:264-270 | the update of each flat weight cell uses delta times activation at its coordinate, all from before the step |
| TrainingSpec.TrainedBiasAt | src/core/neural.c:272-274 | the update of each flat bias cell uses its unit's delta from before the step |
| TrainingSpec.ImportanceNeverDecreases | src/core/neural.c:171-287 | over a whole step no importance of any weight, bias or embedding dimension decreases, with one node or two, and none is touched when plasticity is off |
| TrainingSpec.NothingProtectedWithoutPlasticity | src/core/neural.c:175-287 | no update of a whole step, shared or embedding, counts as protected when plasticity is off |
| Training.PairInput | src/core/neural.c:17-24 | the input segment becomes source embedding then target embedding |
| Training.Forward | src/core/neural.c:26-46 | the loops fill every segment of the buffer with its layer's activation vector |
| Training.BackwardLayer | src/core/neural.c:212-242 | one layer of the backward loop turns the deltas above into the deltas below, other segments untouched |
| Training.Backward | src/core/neural.c:201-242 | the whole delta buffer holds the adjoints of the forward pass before any parameter moves |
| Training.ApplyGradient | src/core/neural.c:171-184 | one cell moves as specified, its neighbours do not, and the counter rises exactly when it was over the threshold |
| Training.UpdateShared | src/core/neural.c:256-276 | every weight and bias is written exactly once with pre-step gradients; the counter rises by exactly the protected cells |
| Training.UpdateEmbeddings | src/core/neural.c:278-287 | both embeddings receive their half-updates, in sequence when they belong to one node |
| Training.Train | src/core/neural.c:186-293 | one step equals the simultaneous update, the counters record exactly the protected updates, the loss is the clipped cross-entropy, and no other node changes |
| ReplaySpec.ValidationIff | src/core/replay.c:86-136 | validation passes exactly when the chain starts at the graph's architecture, is coherent and ends within the ledger |
| ReplayLaws.LoopIsFold | src/core/replay.c:189-370 | from any point of the ledger the loop succeeds exactly when nothing left is amiss, and then computes the fold |
| ReplayLaws.ReplayIsFold | src/core/replay.c:160-374 | a successful replay equals the fold of one event list, and its counters sum to the entries and the migrations |
| ReplayLaws.EveryMigrationOnce | src/core/replay.c:138-158 | the event list expands by each migration exactly once, in order |
| ReplayLaws.ExpansionsNeverRefuse | src/core/replay.c:144-151 | a validated chain that continues the graph's history is never refused by an expansion, whatever is learned in between |
| ReplayLaws.ReplaySucceedsIff | src/core/replay.c:86-374 | the exact condition for success: first source, coherent chain, continued history, every boundary 0 or an entry, every entry readable, of a replayable schema, with context and a payload or a release, and no refusal by the core |
| ReplayReport.LoopAccounts | src/core/replay.c:189-370 | from any point of the ledger, successful or not: each counter has gone up by the number of handled entries of its own kind, and a fault is that of the next entry or of a migration, with the status and id its fields demand |
| ReplayReport.ReplayAccounts | src/core/replay.c:160-374 | of a whole replay: every counter is the number of entries of its kind, over the whole ledger on success and before the named entry or migration on failure |
| ReplayReport.SuccessCountsEach | src/core/replay.c:234-350 | on success pending, failed, withdrawn, skipped, learned and released, and learned with a payload are each counted exactly |
| Withdrawal.SilencedEvents | src/core/replay.c:234-350 | withdrawing, releasing or never committing an entry removes exactly its own events |
| Withdrawal.SilencingForgets | src/core/replay.c:336-343 | replay with an entry withdrawn computes the fold as if it had never been learned |
| Withdrawal.SilentContentsDoNotMatter | src/core/replay.c:324-343 | what pending, failed and withdrawn entries contain never affects the result |
| Withdrawal.RemovalIsWithdrawalIff | src/core/replay.c:202-210 | removing the entry altogether gives the same result exactly when no migration is bound to it, and is refused otherwise |
| Withdrawal.ReplayInTwoParts | src/core/replay.c:182-374 | replaying a prefix and then the rest equals replaying the whole, in success and in result |
| Replay.ValidateReplayMigrations | src/core/replay.c:86-136 | the validation loop returns the specified status and the boundary to blame |
| Replay.ApplyReplayMigrations | src/core/replay.c:138-158 | the loop applies exactly the migrations at the boundary and advances the index past them |
| Replay.ApplyOutcome | src/core/replay.c:234-350 | one entry changes learner and report as its outcome demands, which `ReplayReport.LoopAccounts` gives by its fields |
| Replay.ReplayLedger | src/core/replay.c:160-374 | the merging loop gives the specified status, learner and report; on success the learner is the fold's and each counter is the number of ledger entries of its own kind |
| CborScan.PlainStep | src/app/atproto/cbor_record.cpp:97-98 | an integer, float or simple value is complete with its head |
| CborScan.TextStep | src/app/atproto/cbor_record.cpp:71-77 | a string is complete with the bytes its argument counts, and impossible if fewer remain |
| CborScan.NestStep | src/app/atproto/cbor_record.cpp:78-102 | a container or tag owes its children one level deeper, within the depth bound |
| CborScan.CountIsImpossible | src/app/atproto/cbor_record.cpp:79-89 | a declared count larger than the bytes left can never be served, so refusing it early loses no item |
| CborScan.ReadArgument | src/app/atproto/cbor_record.cpp:59-68 | the accumulated argument is the big-endian value and fits 64 bits |
| CborScan.ReadHead | src/app/atproto/cbor_record.cpp:49-68 | a head is read exactly when the grammar has one there |
| CborScan.StructurallyBounded | src/app/atproto/cbor_record.cpp:40-105 | true exactly when the bytes are one definite-length item nesting at most 63 non-empty containers or tags; the doubled map count never wraps, and the loop terminates |
| CborScan.EncodingIsPrefixFree | src/app/atproto/cbor_record.cpp:40-105 | bytes start with at most one item, so the accepted item is unique |
| CborMeaning.PlainLength | src/app/atproto/cbor_record.cpp:49-68 | an integer, simple value or float is exactly its initial byte and 0, 1, 2, 4 or 8 argument bytes |
| CborMeaning.StringLength | src/app/atproto/cbor_record.cpp:71-77 | a string is exactly its head and the bytes its length counts, short, in one byte or in two |
| CborMeaning.ContainerOwes | src/app/atproto/cbor_record.cpp:78-97 | by initial byte: an array owes its count of items, a map twice its count, a tag one, each one level deeper |
| CborMeaning.ReservedIsNoItem | src/app/atproto/cbor_record.cpp:56-58 | indefinite lengths and reserved additional information are refused |
| CborMeaning.DepthLimitIsExact | src/app/atproto/cbor_record.cpp:100-102 | an integer inside n arrays is accepted exactly for n up to 63 |
| Recall.BoundedExposure | src/core/memory.c:52-57 | the exposure transform stays in [0, 1) |
| Recall.Recency | src/core/memory.c:59-67 | recency stays in [0, 1], and is 1 exactly when both times are known and no time has passed |
| Recall.UseScore | src/core/memory.c:69-77 | the use score stays in [0, 1] |
| Recall.UseScoreGrows | src/core/memory.c:69-77 | one more recall strictly raises the use score |
| Recall.EdgeScoreIs | src/core/memory.c:30-41 | an edge scores 0.7·strength + 0.3·neural held between 0 and 1, a missing edge zero |
| Recall.AssociationIsStrongest | src/core/memory.c:43-50 | the association of different nodes is at least the score of each directed edge, is one of the two, and is symmetric |
| Recall.AssociatedIff | src/core/memory.c:43-50 | it is positive exactly when the nodes differ and an edge either way has a positive blend |
| RecallMeaning.ExposureIs | src/core/memory.c:52-57 | exposure times (familiarity + 1) is the familiarity, when positive |
| RecallMeaning.RecencyIs | src/core/memory.c:59-67 | recency times (one day + age) is one day; zero without both times |
| RecallMeaning.UseIs | src/core/memory.c:69-77 | use times (count + 1) is the count, and 1 when the count is saturated |
| RecallMeaning.TokenAdds | src/core/memory.c:165-207 | what each further summary token adds to each of the six sums, by whether it is known, in the query or supported |
| RecallMeaning.ScoreIs | include/atperson/memory.h:50-56 | the score is the documented weighted sum, and familiarity the weighted mean exposure of the supported tokens |
| RecallMeaning.OrderIs | src/core/memory.c:79-113 | results are ordered by score, exact support, association, later observation, larger ledger id |
| Recall.Support | src/core/memory.c:183-190 | the support of a token is its strongest association with any query token, or zero |
| Recall.EligibleIff | src/core/memory.c:165-207 | an episode is eligible exactly when one of its known, weighted tokens is in the query or on an edge, to or from a query node, whose 0.7·strength + 0.3·neural is positive; familiarity, recency and use never recall it alone |
| Recall.ScoreBand | src/core/memory.c:209-219 | score − exact − 0.5·association lies in [0, 0.25] for non-negative weights |
| Recall.EvidenceOutranks | src/core/memory.c:79-113 | direct evidence ahead by more than a quarter outranks any secondary signal |
| Recall.AheadIsStrictWeak | src/core/memory.c:79-113 | the comparator is consistent in both directions, transitive, and ties only equal ledger ids |
| Recall.ScoreEpisode | src/core/memory.c:156-219 | the nested loops compute the specified evidence for every episode and query; `RecallMeaning.TokenAdds` and `ScoreIs` say what it is |
| RecallLaws.MatchesAreTheEligible | src/core/memory.c:155-234 | the matches are exactly the eligible episodes of the scanned tail |
| RecallLaws.MatchesAscend | src/core/memory.c:155-234 | no episode matches twice and the match buffer of the scanned size never overflows |
| RecallLaws.MatchesNeverTie | src/core/memory.c:106-112 | with distinct ledger ids the order is total |
| RecallLaws.RecallIsTop | src/core/memory.c:237-264 | the result is the top `capacity` eligible episodes in rank order, none twice, none left out that ranks before one returned |
| RecallLaws.RecallIgnoresTheSort | src/core/memory.c:237-239 | any correct sort gives the same result |
| EpisodicMemory.PreviewAgrees | src/core/memory.c:273-286 | when the preview's limit covers the memory, both entry points return the same status and the same copies, for every query, capacity and allocation outcome |
| RecallLaws.MarkedAt | src/core/memory.c:257-263 | exactly the returned episodes have their count raised by one, up to its largest value, and their recall time set; nothing else changes |
| RecallLaws.RecallIsRepeatable | src/core/memory.c:115-271 | repeating a recall returns the same set of episodes: counting them never lets another overtake |
| EpisodicMemory.Memory.RecallRanked | src/core/memory.c:273-278 | status, copies with pre-call values, and exactly the returned episodes counted |
| EpisodicMemory.Memory.RecallPreview | src/core/memory.c:280-286 | the same over a bounded tail with no mutation |
| EpisodicMemory.Memory.Run | src/core/memory.c:115-271 | the shared implementation for every query, limit, capacity and allocation outcome |
| Ranking.SortSorts | src/core/memory.c:237-239 | sorting by a consistent comparator orders the elements and neither loses nor adds one |
| Ranking.SortedIsUnique | src/core/memory.c:237-239 | without ties there is only one sorted arrangement |
| ContextItems.AheadIsStrictWeak | src/core/context.c:104-151 | the seven-level comparator with its string comparisons is asymmetric and its ties are transitive |
| ContextItems.CompareFlips | src/core/context.c:104-151 | swapping the arguments flips the sign, and a tie means equal kind, ledger id and input index |
| ContextItems.ImmediateLeads | src/core/context.c:87-121 | an immediate item of full score sorts before every other kind |
| ContextMeaning.OrderIs | src/core/context.c:104-151 | candidates are ordered by score, kind, later time, larger ledger id, smaller source, smaller author and smaller index |
| ContextMeaning.StringCompareIs | src/core/context.c:136-143 | a string sorts first when it is a proper beginning of the other or has the smaller byte where they first differ |
| ContextBudget.ChooseStaysWithin | src/core/context.c:323-355 | item, token and recent budgets hold; the token count is what the items use, which is all their text or else the whole budget; at most one item is truncated and no item with text follows it |
| ContextBudget.ChoosePicks | src/core/context.c:323-355 | the selection is a subsequence of the ranked candidates |
| ContextBudget.FlagsAreExact | src/core/context.c:326-347 | no limit flag is raised exactly when all candidates but surplus recents fit, and then they are selected whole and in order |
| ContextMeaning.NextCandidate | src/core/context.c:323-355 | for every candidate, what becomes of it given the choice among those ranked before it: passed over, ending the choice, or selected last and cut to the tokens left |
| Context.Familiarity | include/atperson/interaction.h:38-46 | familiarity stays in [0, 1]; `ContextMeaning.FamiliarityIs` gives the value |
| Context.ScoreRecents | src/core/context.c:262-279 | the loop keeps exactly the recent inputs with a token, indexed and scored |
| Context.FillBudgets | src/core/context.c:323-355 | the selection loop computes the specified greedy choice |
| Context.SelectContext | src/core/context.c:191-358 | status and selection for every memory, configuration and request, reading only |
| ContextLaws.CandidateIs | src/core/context.c:207-317 | every candidate comes from one of the five sources, scores at most 1 and starts uncut |
| ContextMeaning.CandidateIff | src/core/context.c:207-317 | an item is a candidate if and only if it is the immediate input with a token, a recalled memory, a recent input with a token, the known author or the known source, with exactly these fields |
| ContextMeaning.CountersAre | src/core/context.c:227-262 | the scan and scoring counters of every outcome |
| ContextMeaning.SucceedsIff | src/core/context.c:191-317 | a selection succeeds exactly for a valid configuration and request whose recall and lookups succeed |
| ContextLaws.CandidatesFit | src/core/context.c:9-10 | the candidates never exceed the fixed buffer, nor the memories their limit |
| ContextLaws.CandidatesNeverTie | src/core/context.c:104-151 | with distinct ledger ids no two different candidates tie |
| ContextLaws.SelectionIsBounded | src/core/context.c:191-358 | every successful selection keeps all five budgets and is a subsequence of the ranked candidates |
| ContextLaws.FlagsTellWhatWasDropped | src/core/context.c:323-355 | the flags of a selection tell exactly whether anything but surplus recents was cut or left out |
| ContextLaws.ImmediateIsFirstIff | src/core/context.c:210-225 | the immediate input is selected exactly when it has a token, and is then the first item |
| ContextLaws.SelectionIgnoresTheSort | src/core/context.c:319-321 | any correct sort of the candidates gives the same selection |
| Tokenizer.RunsAreMaximal | src/core/tokenize.c:54-82 | the scanned runs are exactly the maximal runs of token bytes |
| Tokenizer.TokensAreTheRuns | src/core/tokenize.c:54-82 | each run gives one token, its bytes lower-cased and cut to 95, in text order |
| Tokenizer.TokenBytes | src/core/tokenize.c:62-69 | a token is as long as its run up to 95 bytes; none of its bytes is a capital, and each is the byte of the text or its small letter |
| Tokenizer.TokenByteIff | src/core/tokenize.c:56-60 | token bytes are the letters, the digits, the apostrophe, hyphen and underscore, and every byte outside ASCII |
| Tokenizer.Scan | src/core/tokenize.c:48-83 | the scanner hands the callback the tokens of the text up to its terminator in order, and none after the one it refused |
| Tokenizer.StoppingGivesAPrefix | src/core/tokenize.c:71-75 | stopping at the k-th token has emitted exactly the first k |
| Tokenizer.JoinIsACString | src/core/tokenize.c:54-58 | joined tokens hold no terminator, so the scanner reads them to their end |
| Tokenizer.RetokenizingIsIdentity | src/core/tokenize.c:48-83 | what the scanner emits for the space-joined tokens of a text is what it emits for the text |
| Tokenizer.DistinctFacts | src/app/action/tokens.cpp:20-26 | the distinct list has the same members as the tokens, none twice |
| Tokenizer.Collector.EmitToken | src/app/action/tokens.cpp:20-26 | a new token is kept, a met one is not, and more are asked for while the bound is not reached |
| Tokenizer.KeepingIsDistinct | src/app/action/tokens.cpp:20-42 | the collector as a callback, fed by any tokenizer that honours early stop, ends with the first `max` of the distinct tokens |
| Tokenizer.CollectLegacy | src/app/action/tokens.cpp:28-42 | run on the schema-1 scanner itself, the collector returns the first `max` distinct tokens of the text |
| Tokenizer.DistinctTokens | src/app/action/tokens.cpp:28-52 | for any tokenizer that honours early stop: the first `max` of the distinct tokens, looking at no token past the last one kept |

## Left out

- `fsync`, directory creation, stat and resize failures: a failed write is any prefix of the record (the cut-off step); a missing file is an empty one.
- A foreign write between an append's index refresh and its own write: steps are atomic.
- `EvidenceStore::contains(source, payload, verification)`, the `accept_*`, `classify_*` and `append_*_fact` wrappers: easy members.
- Cursor identifiers: `is_did` and `is_tid` are modelled as predicates; the other validators are not.
- Counters of training and replay are unbounded; they do not wrap at 2^64.
- `atp_network_init`'s own random weights and the scoring entry points: expansion overwrites every weight it draws, and scoring is the forward pass alone.
- The clearing of the delta buffer at the start of a training step: every entry is written before it is read.
- Layout arrays have the layer count as their length; the zero padding of unused slots is not modelled.
- The history-size overflow guard of an expansion counts as an allocation failure.
- The replay's payload buffer and its growth: a payload is read whole or not at all. Expansion during replay has all the memory it needs.
- Replay.ReplayLedger: assumes that observing and mirroring keep the network's shape and history; ledger ids are assumed positive and increasing only where the fold is mentioned.
- A failing observation or mirroring leaves the modelled learner as it was before that entry, although the core may have changed part of it.
- `CborScan`: decoding to JSON is left to the CBOR library and not modelled.
- Schema-2 tokenization, which rests on utf8proc. The collector runs on it in the repository; here it is proved for any tokenizer that stops when told to, and run on the schema-1 scanner.
- Resolving a query to nodes, node lookup, edge storage and the network's score are parameters of recall.
- `qsort` stands as an insertion sort; `SortedIsUnique`, `RecallIgnoresTheSort` and `SelectionIgnoresTheSort` show that the choice does not matter.
- NaN and infinite scores and weights, and all rounding.
- EpisodicMemory.Memory.Run: the match array, and the candidate array of context selection, are sequences; `MatchesAscend` and `CandidatesFit` give the bounds of the buffers they stand for.
- The evidence copies embedded in context items, and their reason codes, which the kind determines.
- Interaction state is looked up through a parameter; deriving it from the ledger mirror is a plain count.
