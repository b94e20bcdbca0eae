# Verified models of Rustack's stateful cores

Rustack is a local stand-in for a set of cloud services. This project models the
parts of it where a mistake would be silent: publishing snapshots on a disk that may
stop at any moment, exact timestamps, the strings that signatures are made of, the
ownership of accepted work, code generation from service models, the API Gateway
store and router, and the bounded JSON reader of the GitHub Action. To verify it,
run `dafny verify dfyconfig.toml`.

How each part is stated:

- **Snapshots** (`Snapshot`, `SnapshotRoot`, `SyncTree`). A root is a map from
  directory slots to a complete generation or a damaged directory. The class `Root`
  changes it in place; each file operation may fail, a recursive delete may stop half
  way, and a history keeps every state, so that a crash can leave any state since the
  last directory sync, with damage to any directory whose files were not synced. What a
  state *stands for* is defined without the code; the theorems say when it changes.
- **Timestamps** (`Decimal`, `EpochSeconds`). The specification is the decimal number itself: an
  integer coefficient and a power of ten. The clamped exponent, the leading-zero
  correction and the digit cut-off are proved exact against it, in 32- and 128-bit
  arithmetic.
- **Signatures** (`Canonical`, `CanonicalHeaders`, `Utf8`, `Strings`). Queries have a meaning,
  a map from decoded names to decoded values. Canonical strings agree exactly when
  meanings do.
- **Ownership** (`StepFunctionsApi`, `StepFunctionsBridge`, `Ownership`,
  `Workflows`). Each owner is a state machine whose steps lie between awaits; callers,
  root and supervisor interleave freely. The classes carry the source's fields, and
  every method is proved to be the step it stands for; the theorems are about all
  runs.
- **Code generation** (`Shapes`, `TypeReferences`). The depth-bounded search is
  compared with reachability, the type printer with the reader that takes its text
  apart again.
- **API Gateway** (`Storage`, `Provider`, `Edits`, `Router`). Operations are steps of one
  store; integrity of references, snapshots and the route table are theorems about
  all runs and all requests.
- **Metadata reader** (`Metadata`). A document is its concrete syntax, with its white
  space and escapes; the automaton and the worklist are compared with the document.

What the proofs found:

- Recovery reports success over a damaged target when no `.previous` lies beside it
  (`Snapshot.RecoveryExact`); neither from a committed generation nor from an empty root
  does any run of loads, saves and crashes get there (`SnapshotRoot.CrashRecovers`).
- A read error on a complete target counts as damage: with a readable `.previous` beside
  it, recovery goes back to that generation (`Snapshot.RejectedTarget`).
- Collecting shapes past fifteen levels can depend on the iteration order of a hash
  map, although the source describes it as the transitive closure: the guard cuts in some
  order exactly when a path is longer than the bound (`Shapes.CutExactly`), and then a
  reachable id can be missed (`Shapes.MissedExactly`, `Shapes.BoundMatters`).
- A field whose type comes down to another operation's own input structure is printed with
  a name that is not imported (`TypeReferences.OwnInputNotImported`), and so is one whose
  structure is named like a word on the skip list (`TypeReferences.SkippedOccurs`);
  `TypeReferences.FieldNamesImported` says exactly when a name is imported.
- Normalizing a query can push it over its own size limit (`Canonical.SlashesGrow`), and
  only then is it not idempotent (`Canonical.NormalizedIdempotent`).
- The second string check of the metadata reader can only fail on a lone surrogate:
  length was settled by the scan (`Metadata.ScannedValuesFit`).
- The documentation of canonical headers speaks of consecutive spaces; the code, and
  the model, collapse white space of every kind.

## Model

| member | source | states |
|---|---|---|
| SnapshotRoot.Root.ReplaceDirectory | apps/rustack/src/snapshot.rs:1063-1103 | unless a read error misleads its recovery, the disk stands for the old generation in every state before one switch point and for the staged, validated one in every state after it, half-finished deletes and the failed rename included; a success is durable, with the backup gone, and means that no file operation failed; an error is one that did, the recovery's refusal or the staged generation's verdict |
| SnapshotRoot.Root.SwapIn | apps/rustack/src/snapshot.rs:1074-1102 | the renames alone: where the switch falls, that a failed publication leaves the old generation selected, and that only a failed file operation makes it fail |
| SnapshotRoot.Root.Publish | apps/rustack/src/snapshot.rs:1077-1094 | the disk stands for the old generation until the rename of the staged one, which alone makes it the target, after the old one's new name is durable; if that rename alone fails the disk is as before |
| SnapshotRoot.Root.Prepare | apps/rustack/src/snapshot.rs:1070-1075 | everything before the renames keeps the selected generation and lets only a staging directory through that is valid and whose files are synced; it refuses only for a failed file operation, for the recovery's refusal or for the verdict on the staged generation |
| SnapshotRoot.Root.PreserveTarget | apps/rustack/src/snapshot.rs:1077-1082 | setting the target aside keeps what the disk stands for, even if the sync fails; a success is durable |
| SnapshotRoot.Root.RestoreTarget | apps/rustack/src/snapshot.rs:1083-1094 | undoing the set-aside after a failed rename restores the disk durably unless a file operation fails, and keeps its meaning in any case |
| SnapshotRoot.Root.RecoverSnapshot | apps/rustack/src/snapshot.rs:1137-1200 | for any judge, with read errors or without: a success is that of the recovery function, durable if it changed anything, and without a failed file operation there is no file error; any other error is the recovery function's refusal and changes nothing; under an exact judge a disk that stands for a generation ends with it as the target; `.previous` goes only by the rename to the target; without read errors every intermediate state selects the same generation |
| SnapshotRoot.Root.SyncStaged | apps/rustack/src/snapshot.rs:1247-1271 | a staged directory is safe from a crash only once every file and directory in it was synced, files first and children before parents |
| SnapshotRoot.Root.Crash | apps/rustack/src/snapshot.rs:1063-1103 | a crash leaves a state since the last directory sync, in which each directory with files not yet synced may be damaged |
| SnapshotRoot.Root.JudgeRecovery | apps/rustack/src/snapshot.rs:1146-1187 | the decision before the renames: the error, nothing to do, or the one backup to restore |
| SnapshotRoot.Root.Restore | apps/rustack/src/snapshot.rs:1188-1193 | the two renames pass only through the state between them and end, durably, in the recovered one, unless a file operation fails |
| SnapshotRoot.Root.FindLegacy | apps/rustack/src/snapshot.rs:1150-1168 | finds the only legacy backup, or that there is none, or refuses when there are several |
| SnapshotRoot.Root.RetirePreviousChecked | apps/rustack/src/snapshot.rs:1117-1134 | touches `.previous` only, only before the deadline, and never changes what the disk stands for; it fails only past the deadline or with a file operation, and a removal that succeeds is durable |
| SnapshotRoot.Root.CleanupStaleStaging | apps/rustack/src/snapshot.rs:1202-1219 | removes staging directories and nothing else |
| SnapshotRoot.Root.LoadBefore | apps/rustack/src/snapshot.rs:571-662 | over the recorded states: wherever `.previous` changes, it is by the rename of a recovery, or it is after the manifest and every import succeeded, before the deadline, over a complete target; without read errors no load changes what the disk stands for, and under an exact judge one that succeeds ends with the selected generation as its target; an error is a failed file operation, a deadline past, a failed import or the recovery's refusal |
| SnapshotRoot.Root.Save | apps/rustack/src/snapshot.rs:670-738 | the disk switches to the new generation only after every export succeeded; an acknowledged save is durable and is the target; an error is a failed file operation, a failed export, the recovery's refusal or the verdict on the new generation |
| SnapshotRoot.Root.Live | apps/rustack/src/snapshot.rs:571-738 | over any sequence of loads, saves and crashes without read errors, every state a crash may leave stands for the last acknowledged save or one past its exports since; read errors or not, from a clean root every such state is clean, its complete generations outside staging were there at first or got past their exports, and no legacy backup appears |
| SnapshotRoot.CrashRecovers | apps/rustack/src/snapshot.rs:1063-1200 | after any such run and crash: from a committed generation, or once a save was acknowledged, recovery ends with a complete target of one of those; from any clean root, the empty one included, it refuses, or ends with such a target, or with no target where nothing was committed, never with a damaged one; a clean root without legacy backups is not refused |
| SnapshotRoot.AllowedSome | apps/rustack/src/snapshot.rs:1063-1200 | a run can leave no generation at all if and only if there was none and no save was acknowledged |
| Snapshot.RecoveryRestores | apps/rustack/src/snapshot.rs:1137-1200 | recovery of a state that stands for a generation ends with it as the target |
| Snapshot.RecoveryExact | apps/rustack/src/snapshot.rs:1137-1200 | recovery ends with a complete target exactly when the state stands for a generation; it succeeds over a damaged target exactly when no `.previous` is beside it |
| Snapshot.RecoveryClean | apps/rustack/src/snapshot.rs:1137-1200 | from a clean state, recovery refuses or ends with the selected generation as its target, or with none where none is selected |
| Snapshot.RejectedTarget | apps/rustack/src/snapshot.rs:1137-1200 | a target is replaced if and only if the judge rejects it, because it is damaged or on a read error, and accepts the `.previous` beside it; it is then kept aside, and the refusals are exactly the others |
| Snapshot.RefusedBecause | apps/rustack/src/snapshot.rs:1146-1187 | which error recovery refuses with, each if and only if: several legacy backups and nothing else, a backup that is rejected, or a target or backup too large for the budget |
| Snapshot.RecoveryConfined | apps/rustack/src/snapshot.rs:1137-1200 | read errors or not, recovery brings up no generation that was not there; without them a clean root without legacy backups is not refused |
| Snapshot.RecoveryRestartable | apps/rustack/src/snapshot.rs:1188-1196 | a crash between the two renames and a rerun reach the same disk |
| Snapshot.RecoveryConserves | apps/rustack/src/snapshot.rs:1188-1196 | recovery deletes nothing: the contents of all slots are a permutation |
| Snapshot.RecoverySelects | apps/rustack/src/snapshot.rs:1179-1196 | the three states of a recovery select one and the same generation |
| SyncTree.Sync | apps/rustack/src/snapshot.rs:1247-1271 | succeeds exactly on trees of files and directories that can all be synced; then each is synced once, files before directories, and a directory after all below it |
| SyncTree.Collect | apps/rustack/src/snapshot.rs:1247-1266 | the worklist ends, with all files and with the directories in the order of a depth-first walk |
| SyncTree.ReadDirectory | apps/rustack/src/snapshot.rs:1251-1264 | one directory: its files synced, its subdirectories pushed, anything else refused |
| SyncTree.OrderParentsFirst | apps/rustack/src/snapshot.rs:1265-1269 | in that order no directory comes after one below it, so the reverse puts children first |
| SyncTree.OrderMultiset | apps/rustack/src/snapshot.rs:1247-1266 | the order holds every directory exactly once |
| SyncTree.CleanExact | apps/rustack/src/snapshot.rs:1254-1264 | a tree passes the check of its kinds if and only if no path in it leads to anything but a file or a directory |
| SyncTree.FilesExact | apps/rustack/src/snapshot.rs:1258-1260 | the files synced are exactly the paths that lead to a file |
| SyncTree.DirsExact | apps/rustack/src/snapshot.rs:1256-1269 | the directories synced are exactly the paths that lead to a directory |
| EpochSeconds.Parse | codegen/templates/epoch_seconds.rs:36-75 | the parser, with its 32- and 128-bit arithmetic, returns the exact decimal value |
| EpochSeconds.FromNumeral | codegen/templates/epoch_seconds.rs:55-75 | every early exit and the digit loop give the exact truncated value, and no checked operation fails |
| EpochSeconds.ParsedExact | codegen/templates/epoch_seconds.rs:36-75 | a text of at most 128 bytes is accepted if and only if it is in the grammar and its value times 1000, truncated, fits; then it gives that value |
| EpochSeconds.PointedValue | codegen/templates/epoch_seconds.rs:50-75 | without an exponent: the digits before the point are seconds, the first three after it milliseconds, zeros where there are none; the rest is cut, whatever the sign |
| EpochSeconds.ExponentMovesRight | codegen/templates/epoch_seconds.rs:40-57 | an exponent without a minus sign, with either marker, moves the point that many places to the right |
| EpochSeconds.ExponentMovesLeft | codegen/templates/epoch_seconds.rs:40-57 | one with a minus sign moves it to the left |
| EpochSeconds.ExponentAddsZeros | codegen/templates/epoch_seconds.rs:40-57 | on a whole number an exponent stands for that many zeros |
| EpochSeconds.PointOptional | codegen/templates/epoch_seconds.rs:50 | a point with nothing after it changes nothing |
| EpochSeconds.OnlyShaped | codegen/templates/epoch_seconds.rs:37-51 | what is accepted has at most 128 bytes, one leading minus at most, a digit first, digits around at most one point and one exponent, and digits in the exponent |
| Decimal.DecomposeExact | codegen/templates/epoch_seconds.rs:38-55 | the splits accept exactly the texts of the grammar, each in one way |
| Decimal.TruncationUnique | codegen/templates/epoch_seconds.rs:58-75 | there is one truncation toward zero of a decimal, so the specification is a function |
| EpochSeconds.ClampedMagnitudeExact | codegen/templates/epoch_seconds.rs:45-46 | clamping the exponent after each digit is clamping the exponent |
| EpochSeconds.ClampHarmless | codegen/templates/epoch_seconds.rs:45-66 | the clamp at 1024 changes no exit and no digit count |
| Decimal.SignificantDigits | codegen/templates/epoch_seconds.rs:58-66 | no significant digit means zero; more than 19 mean more than an i64 |
| EpochSeconds.ExitsExact | codegen/templates/epoch_seconds.rs:58-75 | each exit, and the digits read otherwise, agree with the exact value |
| Decimal.TakenExact | codegen/templates/epoch_seconds.rs:67-72 | reading that many digits, padded with zeros, is the exact truncation |
| EpochSeconds.ReadDigits | codegen/templates/epoch_seconds.rs:67-72 | the digit loop computes the value of the digits taken and stays below ten to the nineteenth |
| EpochSeconds.LeadingZeros | codegen/templates/epoch_seconds.rs:61-62 | counts the leading zeros of the digits |
| EpochSeconds.DecimalWritten | codegen/templates/epoch_seconds.rs:20-23 | the digits written for a whole number denote it, without a leading zero |
| EpochSeconds.WrittenShape | codegen/templates/epoch_seconds.rs:18-24 | a written timestamp is a JSON number (section 6 of RFC 8259) of at most 24 bytes |
| EpochSeconds.SerializeText | codegen/templates/epoch_seconds.rs:13-25 | the serialized text is that of some milliseconds m, and the instant's nanoseconds lie from m milliseconds on, away from zero, by less than one |
| EpochSeconds.LeapSecondsRefused | codegen/templates/epoch_seconds.rs:14 | leap seconds, and only they, are refused |
| EpochSeconds.ParsedWritten | codegen/templates/epoch_seconds.rs:13-75 | parsing a written number of milliseconds gives it back, in range |
| EpochSeconds.RoundTrip | codegen/templates/epoch_seconds.rs:13-75 | an instant reads back cut to milliseconds toward zero, exactly itself when it is aligned, if that is in range |
| Canonical.BuildCanonicalQueryStringNormalized | crates/rustack-auth/src/canonical.rs:247-275 | computes the normalized string, and refuses exactly the queries that are too large, not UTF-8 or repeat a name |
| Canonical.ValidateUniqueQueryNames | crates/rustack-auth/src/canonical.rs:175-188 | accepts exactly the queries within the limits whose decoded names are valid and distinct |
| Canonical.AcceptedExact | crates/rustack-auth/src/canonical.rs:163-188 | accepted are exactly the queries of at most 65536 bytes and 1024 parts in which every decoded name and value is valid UTF-8 and no two names are equal |
| Canonical.ParamsBetween | crates/rustack-auth/src/canonical.rs:257 | the parameters stand between the separators, in order, empty ones left away |
| Canonical.FirstEquals | crates/rustack-auth/src/canonical.rs:258 | the first '=' ends the name; without one the value is empty |
| Canonical.CheckNames | crates/rustack-auth/src/canonical.rs:177-187 | the loop with the set of seen names decides validity and distinctness |
| Canonical.EncodeParams | crates/rustack-auth/src/canonical.rs:256-267 | decodes, checks and re-encodes every parameter in wire order, or refuses |
| Canonical.CollisionFree | crates/rustack-auth/src/canonical.rs:247-275 | two accepted queries have the same normalized string if and only if they decode to the same map of names to values |
| Canonical.NormalizedUpper | crates/rustack-auth/src/canonical.rs:247-275 | in the normalized string every '%' is followed by two digits out of 0-9 and A-F |
| Canonical.NormalizedOrder | crates/rustack-auth/src/canonical.rs:268-274 | its parameters stand in strictly ascending byte order of their encoded names |
| Canonical.MeaningPreserved | crates/rustack-auth/src/canonical.rs:247-275 | the normalized string decodes to the meaning of the query |
| Canonical.PermutationInvariant | crates/rustack-auth/src/canonical.rs:247-275 | reordering parameters changes neither acceptance nor result |
| Canonical.NormalizedIdempotent | crates/rustack-auth/src/canonical.rs:247-275 | normalizing twice is normalizing once, exactly when the result still fits 64 KiB |
| Canonical.SlashesGrow | crates/rustack-auth/src/canonical.rs:247-275 | a query of one value of n slashes is accepted and grows to 1 + 3n bytes: past a third of the limit the result is refused |
| Canonical.FirstMatchStable | crates/rustack-auth/src/canonical.rs:174-188 | sorting does not change the value a first-match lookup by decoded name finds |
| Canonical.DecodeEncode | crates/rustack-auth/src/canonical.rs:288-293 | percent decoding undoes the encoding, for all bytes (sections 2.1 and 2.3 of RFC 3986) |
| Canonical.EncodeUnique | crates/rustack-auth/src/canonical.rs:373-375 | the encoding is the one text that decodes to the bytes, leaves unreserved bytes as they are and writes every other as '%' with two digits out of 0-9 and A-F (section 2.1 of RFC 3986) |
| Canonical.UnreservedExact | crates/rustack-auth/src/canonical.rs:373-375 | exactly letters, digits and the four marks of section 2.3 of RFC 3986 stand for themselves |
| Canonical.DecodePlain | crates/rustack-auth/src/canonical.rs:288-293 | text without '%' decodes to itself, a plus sign included |
| Canonical.DecodeEscape | crates/rustack-auth/src/canonical.rs:288-293 | two hex digits after a '%' spell a byte, in either case |
| Canonical.DecodeMalformed | crates/rustack-auth/src/canonical.rs:288-293 | a '%' without two hex digits stays |
| Canonical.EncodeAlphabet | crates/rustack-auth/src/canonical.rs:373-375 | an encoded component holds unreserved characters and '%' only, so no separator |
| Canonical.SortedUnique | crates/rustack-auth/src/canonical.rs:268-270 | a sorted sequence of pairs is determined by its multiset |
| Strings.LessExact | crates/rustack-auth/src/canonical.rs:268-270 | byte order is decided at the first difference, a proper prefix coming first |
| Canonical.LossyValid | crates/rustack-auth/src/canonical.rs:106-107 | lossy decoding always gives valid UTF-8 |
| Utf8.ValidExact | crates/rustack-auth/src/canonical.rs:180-185 | the byte table of the UTF-8 check accepts exactly the encodings of Unicode scalar values (section 3 of RFC 3629) |
| Utf8.BadStops | crates/rustack-auth/src/canonical.rs:106-107 | no character starts with more bytes than lossy decoding replaces at once |
| Utf8.BadStarts | crates/rustack-auth/src/canonical.rs:106-107 | if it replaces more than one byte at once, some character starts with them |
| Canonical.UriStable | crates/rustack-auth/src/canonical.rs:95-112 | the canonical URI is its own canonical URI and keeps the number of segments, except for the empty path |
| Canonical.UriUpper | crates/rustack-auth/src/canonical.rs:95-112 | in the canonical URI every '%' is followed by two digits out of 0-9 and A-F |
| Canonical.UriCollisionFree | crates/rustack-auth/src/canonical.rs:95-112 | two paths share the canonical URI if and only if they have the same segments after lossy decoding |
| Canonical.BuildCanonicalQueryString | crates/rustack-auth/src/canonical.rs:139-157 | computes the raw form: the pairs as on the wire, sorted |
| Canonical.RawCollisionFree | crates/rustack-auth/src/canonical.rs:139-157 | two queries share the raw form if and only if they hold the same pairs equally often |
| Canonical.RawIdempotent | crates/rustack-auth/src/canonical.rs:139-157 | the raw form is its own raw form |
| CanonicalHeaders.CollapseWhitespace | crates/rustack-auth/src/canonical.rs:383-398 | each run of white space becomes one space |
| CanonicalHeaders.ValueIsWords | crates/rustack-auth/src/canonical.rs:327 | a canonical value is the words of the header value, one space apart |
| CanonicalHeaders.ValuesAgree | crates/rustack-auth/src/canonical.rs:327 | two values are signed alike if and only if they have the same words |
| CanonicalHeaders.MergeHeaders | crates/rustack-auth/src/canonical.rs:322-335 | under each lowercase name, the canonical values in header order, joined with commas |
| CanonicalHeaders.BuildCanonicalHeaders | crates/rustack-auth/src/canonical.rs:321-346 | one line for each signed name that is present, in sorted order |
| CanonicalHeaders.NamesAscending | crates/rustack-auth/src/canonical.rs:338-339 | the signed names are written in ascending order |
| CanonicalHeaders.BlockStable | crates/rustack-auth/src/canonical.rs:321-346 | swapping neighbouring headers of different names, letter case of names and white space of values do not change the block |
| CanonicalHeaders.BlockCollisionFree | crates/rustack-auth/src/canonical.rs:321-346 | two lists of headers give the same block if and only if every signed name has the same joined values in both, or is missing from both |
| CanonicalHeaders.LineSays | crates/rustack-auth/src/canonical.rs:338-346 | the block has the line of a name and a value exactly when the name is signed and given with that value |
| CanonicalHeaders.TwoNames | crates/rustack-auth/src/canonical.rs:321-346 | two signed names, one of them given twice: the smaller name first, a colon after each name, commas between values, a line break between the lines |
| StepFunctionsApi.StepKeeps | apps/rustack/src/stepfunctions_api.rs:229-376 | every step of callers, root and supervisor keeps the ownership invariant |
| StepFunctionsApi.RunKeeps | apps/rustack/src/stepfunctions_api.rs:229-376 | the invariant holds in every state of every run |
| StepFunctionsApi.Conservation | apps/rustack/src/stepfunctions_api.rs:229-376 | in every run: permits are neither lost nor made, slots are the live jobs, no call is answered twice, and the full-channel error is unreachable |
| StepFunctionsApi.RootReturned | apps/rustack/src/stepfunctions_api.rs:313-327 | once the root returned, every accepted envelope was answered exactly once, and it returned Ok if and only if nothing is quarantined |
| StepFunctionsApi.QuarantineCounts | apps/rustack/src/stepfunctions_api.rs:354-376 | in every run the quarantined permits are as many as the jobs that failed, and the root returns Ok if and only if none did |
| StepFunctionsApi.AnswerWaits | apps/rustack/src/stepfunctions_api.rs:354-376 | while its caller waits, an answer is there for it, with its permit exactly if the job did not fail |
| StepFunctionsApi.TakenInOrder | apps/rustack/src/stepfunctions_api.rs:333-352 | envelopes are taken in the order they were sent |
| StepFunctionsApi.StopClosesQueue | apps/rustack/src/stepfunctions_api.rs:318-323 | once the root has noticed the stop, no envelope is accepted |
| StepFunctionsApi.ClosedForGood | apps/rustack/src/stepfunctions_api.rs:231-251 | after a close, the end of the queue, the root's return or the owner's drop, no call is admitted any more |
| StepFunctionsApi.OutcomeLatched | apps/rustack/src/stepfunctions_api.rs:313-327 | an outcome never changes, a closed channel accepts nothing more, quarantine never shrinks |
| StepFunctionsApi.FullUnreachable | apps/rustack/src/stepfunctions_api.rs:252-264 | a caller that holds a permit never finds the channel full |
| StepFunctionsApi.DropAnswersQueue | apps/rustack/src/stepfunctions_api.rs:290-310 | a dropped owner answers everything queued; what it leaves unanswered is what was running |
| StepFunctionsApi.StepMonotonic | apps/rustack/src/stepfunctions_api.rs:229-376 | no step takes back an answer, a quarantined permit or a closing |
| StepFunctionsApi.Api.Admit | apps/rustack/src/stepfunctions_api.rs:231-251 | the checks of the handler, in order, with the error of each |
| StepFunctionsApi.Api.Submit | apps/rustack/src/stepfunctions_api.rs:252-264 | the permit goes into the channel, or back when it is closed |
| StepFunctionsApi.Api.Leave | apps/rustack/src/stepfunctions_api.rs:265-273 | a caller that is gone gives its permit back, if its reply carried one |
| StepFunctionsApi.Api.Start | apps/rustack/src/stepfunctions_api.rs:340-352 | the next envelope becomes a job with its slot |
| StepFunctionsApi.Api.FinishOk | apps/rustack/src/stepfunctions_api.rs:354-362 | a joined job answers with its permit |
| StepFunctionsApi.Api.FinishError | apps/rustack/src/stepfunctions_api.rs:363-374 | a failed job answers without its permit, which is withheld for good |
| StepFunctionsApi.Api.Turn | apps/rustack/src/stepfunctions_api.rs:318-337 | one turn of the root's loop is the step it stands for |
| StepFunctionsApi.Api.DropOwner | apps/rustack/src/stepfunctions_api.rs:290-310 | dropping the owner, before or after the root returned: if it returned Ok its state is freed, otherwise the drop closes, answers the queue and leaks the rest |
| StepFunctionsApi.ApiSupervisor.Shutdown | apps/rustack/src/stepfunctions_api.rs:403-421 | the first answer of the root is that of every later call; a deadline keeps the root to be joined |
| StepFunctionsBridge.StepKeeps | apps/rustack/src/stepfunctions_bridge.rs:235-439 | every step of callers, manager and supervisor keeps the ownership invariant |
| StepFunctionsBridge.OwnedCallsExact | apps/rustack/src/stepfunctions_bridge.rs:324-330 | in every run, owned calls are those about to be sent, queued, active or quarantined, and unhealthy means something is quarantined |
| StepFunctionsBridge.SettledOnce | apps/rustack/src/stepfunctions_bridge.rs:343-380 | no submission is started or rejected twice, or both; once the manager is done each was exactly one of them |
| StepFunctionsBridge.QuarantineIsForGood | apps/rustack/src/stepfunctions_bridge.rs:381-439 | a permit quarantined at some time is missing from the semaphore ever after, also once the manager was dropped, before or after it returned; it returns Ok if and only if nothing was ever quarantined |
| StepFunctionsBridge.QuarantineCounts | apps/rustack/src/stepfunctions_bridge.rs:381-411 | in every run the quarantined permits are as many as the workers that panicked or left their cleanup uncertain, and the manager returns Ok if and only if there was none |
| StepFunctionsBridge.CleanExitFrees | apps/rustack/src/stepfunctions_bridge.rs:381-396 | a worker that ends clean gives its permit back, any other does not |
| StepFunctionsBridge.TakenInOrder | apps/rustack/src/stepfunctions_bridge.rs:343-373 | submissions are taken in the order they were sent |
| StepFunctionsBridge.ClosedForGood | apps/rustack/src/stepfunctions_bridge.rs:268-280 | after a close the stop stays requested; after it, the last port's drop, the observed stop or the manager's drop, no call is admitted any more |
| StepFunctionsBridge.DropFreesQueued | apps/rustack/src/stepfunctions_bridge.rs:413-439 | whenever the manager is dropped, the guard frees its state only when it owns nothing, so exactly the permits of queued submissions go back |
| StepFunctionsBridge.NothingStartsAfterStop | apps/rustack/src/stepfunctions_bridge.rs:345-349 | once the manager has observed the stop, nothing more is started |
| StepFunctionsBridge.FullUnreachable | apps/rustack/src/stepfunctions_bridge.rs:254-264 | a caller that holds a permit never finds the channel full |
| StepFunctionsBridge.StepMonotonic | apps/rustack/src/stepfunctions_bridge.rs:235-439 | quarantine, rejections and a closed queue are never taken back |
| StepFunctionsBridge.Bridge.Admit | apps/rustack/src/stepfunctions_bridge.rs:236-252 | the checks of the port, with the failure of each |
| StepFunctionsBridge.Bridge.Submit | apps/rustack/src/stepfunctions_bridge.rs:253-265 | the permit goes into the queue, or back when it is closed |
| StepFunctionsBridge.Bridge.OwnedCalls | apps/rustack/src/stepfunctions_bridge.rs:324-330 | in a reachable state, the calls about to be sent, queued, active and quarantined; never below zero |
| StepFunctionsBridge.Bridge.RejectQueue | apps/rustack/src/stepfunctions_bridge.rs:374-380 | everything queued is rejected, its permits freed |
| StepFunctionsBridge.Bridge.FinishWorker | apps/rustack/src/stepfunctions_bridge.rs:381-396 | a worker that exits frees its permit, or has it withheld when its cleanup is uncertain |
| StepFunctionsBridge.Bridge.FailWorker | apps/rustack/src/stepfunctions_bridge.rs:397-410 | a worker that panics has its permit withheld |
| StepFunctionsBridge.Bridge.Turn | apps/rustack/src/stepfunctions_bridge.rs:343-373 | one turn of the manager's loop is the step it stands for |
| StepFunctionsBridge.Bridge.DropManager | apps/rustack/src/stepfunctions_bridge.rs:413-439 | a dropped manager closes and rejects the queue, then frees its state if it owns no job, no active permit and no quarantine, and leaks it otherwise |
| StepFunctionsBridge.LambdaBridgeSupervisor.Shutdown | apps/rustack/src/stepfunctions_bridge.rs:290-308 | every call closes the bridge; the first answer is that of every later call; a deadline keeps the manager |
| Workflows.WorkflowSupervisor.Quiesce | apps/rustack/src/workflows.rs:294-371 | from any state: the phase never falls; the grace cutoff is chosen once, the first reading of the clock plus the drain time; it succeeds if and only if all is done without a failure, with every installed owner joined; otherwise the last observation says whether a deadline or a lost caller ended it |
| Workflows.WorkflowSupervisor.Shutdown | apps/rustack/src/workflows.rs:373-397 | joins the archive once, leaves grace without a new cutoff, and attempts the owners whatever the archive answered; success if and only if all is done without a failure and the archive was joined; the first failure of an owner comes before the archive's answer, and every owner is signalled unless it succeeds |
| Workflows.WorkflowSupervisor.SkipGrace | apps/rustack/src/workflows.rs:374-379 | closes admission and moves the early phases past grace |
| Workflows.WorkflowSupervisor.Drive | apps/rustack/src/workflows.rs:294-402 | over any interleaving of calls, deadlines, errors and abandoned awaits: a success means every installed owner joined, and no observation ever failed; each cleanup joins the archive once, and a cleanup that succeeds has it joined |
| Workflows.WorkflowSupervisor.Advance | apps/rustack/src/workflows.rs:302-370 | each turn of the loop raises the phase or ends the call with the deadline or the abandoned await that ended it |
| Workflows.WorkflowSupervisor.WaitIdle | apps/rustack/src/workflows.rs:322-331 | grace ends with an answer, or with a deadline no earlier than the cutoff |
| Workflows.WorkflowSupervisor.Fail | apps/rustack/src/workflows.rs:398-402 | the first failure is kept |
| Workflows.ObservedInOrder | apps/rustack/src/workflows.rs:302-364 | no owner is observed before each earlier one gave a final answer, nor again after its own |
| Workflows.OwnersInTurn | apps/rustack/src/workflows.rs:302-364 | the API root ends before anything else, the registry before callbacks and bridge, the callbacks, if there are any, before the bridge, and none is observed after it ended |
| Workflows.NoErrorNoFailure | apps/rustack/src/workflows.rs:398-402 | there is a first failure if and only if some observation failed |
| Shapes.CollectReferencedShapes | codegen/src/shapes.rs:268-306 | the search over the shared visited set |
| Shapes.CollectedExactly | codegen/src/shapes.rs:268-306 | if no simple path is longer than the bound, keys of maps on the way aside, the search from a closed set adds exactly what is reachable, built-in ids aside |
| Shapes.CollectedKinds | codegen/src/shapes.rs:284-304 | within the bound, every member of a collected structure or union, the member of a collected list and the key and value of a collected map are collected, built-in ids aside, and nothing else but the root |
| Shapes.UnionCollected | codegen/src/shapes.rs:299-303 | an input whose member is a union of one structure: all three are collected |
| Shapes.AddedWithin | codegen/src/shapes.rs:268-306 | whatever the model, only ids on walks within the bound are added |
| Shapes.OrderIndependent | codegen/src/shapes.rs:284-300 | then the iteration order of the members is irrelevant |
| Shapes.CollectedUncut | codegen/src/shapes.rs:268-306 | the search from a closed set is exact whenever the guard turns no unvisited id away |
| Shapes.CutFound | codegen/src/shapes.rs:274-282 | an unvisited id is turned away only at the end of a simple path one edge longer than the bound |
| Shapes.CutExactly | codegen/src/shapes.rs:268-306 | some order of the members makes the guard turn an unvisited id away if and only if such a path leaves the root |
| Shapes.MissedInSomeOrder | codegen/src/shapes.rs:268-306 | if the last id of such a path is referred to from the path alone, some order misses it though it is reachable |
| Shapes.MissedExactly | codegen/src/shapes.rs:268-306 | an id with one referrer is missed by some order that visits the referrer if and only if such a path ends with the two |
| Shapes.BoundMatters | codegen/src/shapes.rs:274 | one model of seventeen shapes, read in two orders: one misses a reachable id and the other collects it |
| Shapes.VisitExpands | codegen/src/shapes.rs:268-306 | as long as the guard turns no unvisited id away, every id the search is done with has its targets collected, those still on the stack aside |
| Shapes.CollectOperations | codegen/src/shapes.rs:384-424 | fails exactly on a missing or wrong operation shape; otherwise the shared set is the union of the closures of all inputs and outputs |
| Shapes.ReferencedBy | codegen/src/shapes.rs:460-467 | the closures of a set of roots, in any order |
| Shapes.ResolveReferences | codegen/src/shapes.rs:384-467 | what all operations reference is the input closure and the output closure together |
| Shapes.RootsExact | codegen/src/shapes.rs:384-424 | the roots of a side are exactly the inputs, or the outputs, of the named operations |
| TypeReferences.CollectTypeReferences | codegen/src/codegen.rs:591-634 | collects the known words of the cleaned text that are not skipped |
| TypeReferences.CategoryNeedsTypes | codegen/src/codegen.rs:575-588 | the imports of a category are those of all fields of all its structures |
| TypeReferences.ReferencesExact | codegen/src/codegen.rs:591-634 | in the printed type of any structure or union member whose list and map chain ends, an option around a list or map included, the reader finds exactly the known names of the shapes the type comes down to |
| TypeReferences.NothingLost | codegen/src/codegen.rs:603-624 | no known name is lost if and only if none of them is on the skip list |
| TypeReferences.ResolvedPrints | codegen/src/shapes.rs:128-170 | the type printer prints the type tree of the shape |
| TypeReferences.BuiltinsApart | codegen/src/shapes.rs:173-188 | the built-in types, a primitive printed like its box |
| TypeReferences.ScalarsAgree | codegen/src/shapes.rs:128-170 | a scalar of the model's own is printed like the built-in one of its kind; an enum by its name exactly if that is needed |
| TypeReferences.MapPrinted | codegen/src/shapes.rs:128-170 | a map of strings to a structure is printed with the key first |
| TypeReferences.OptionalExactly | codegen/src/shapes.rs:320-329 | a member is an option if and only if it is not required and its type is no list or map |
| TypeReferences.ReplaceShown | codegen/src/codegen.rs:598-602 | one replacement blanks exactly the openers it looks for, at any depth of nesting |
| TypeReferences.WordsShown | codegen/src/codegen.rs:603-605 | the words of the blanked text are the leaves of the type, in order |
| TypeReferences.FieldNamesImported | codegen/src/shapes.rs:374-531 | within the bound, every shape a field is printed with is collected, and a category that holds the field imports the name if and only if it is no skipped word and some shareable shape the operations reach has it |
| TypeReferences.DeclaredExactly | codegen/src/shapes.rs:469-531 | types.rs declares a name if and only if some shape the operations reach has it and is an enum, a union, or a structure that is no error and no operation's own input or output, unless it serves on the other side too |
| TypeReferences.PlacesExact | codegen/src/shapes.rs:472-531 | a structure goes to the inputs exactly if it is an operation's input and no output, to the outputs exactly if it is an output and no input reaches it, errors aside |
| TypeReferences.OwnInputNotImported | codegen/src/shapes.rs:478-490 | an input structure that is a member of another input's is printed by its name and not imported |
| TypeReferences.SkippedNotImported | codegen/src/codegen.rs:603-624 | a shared structure whose name is a skipped word is declared, printed by its name and not imported |
| TypeReferences.SkippedOccurs | codegen/src/codegen.rs:603-624 | a model where this happens: an input with one member, the structure StreamingBlob |
| Provider.StepExact | crates/rustack-apigatewayv2-core/src/provider.rs:130-1392 | one operation keeps every reference resolved if and only if the ids the client gave name existing records |
| Provider.EditExact | crates/rustack-apigatewayv2-core/src/provider.rs:405-1392 | the same for the change to one API, before automatic deployment |
| Provider.RunIntegrity | crates/rustack-apigatewayv2-core/src/provider.rs:130-1392 | in every run of requests and snapshot imports, all references resolve up to the first event with an id that names nothing, and that event leaves one that does not |
| Provider.RunSnapshots | crates/rustack-apigatewayv2-core/src/provider.rs:90-99 | in every state of every run, imports included, importing the export gives that state |
| Provider.RunRestores | crates/rustack-apigatewayv2-core/src/provider.rs:90-99 | importing the export of an earlier state of the run leads back to that state |
| Provider.StepKeyed | crates/rustack-apigatewayv2-core/src/provider.rs:167-1868 | top-level keys stay the ids of their records |
| Provider.DeployedAfter | crates/rustack-apigatewayv2-core/src/provider.rs:130-160 | after a route or integration change every stage with automatic deployment points at a present automatic deployment, other stages and other APIs are unchanged, and no deployment is lost |
| Provider.AutoDeployExact | crates/rustack-apigatewayv2-core/src/provider.rs:130-160 | automatic deployment neither breaks nor heals a reference |
| Edits.DeleteUndoesCreate | crates/rustack-apigatewayv2-core/src/provider.rs:405-1392 | where all references resolve, deleting a route, integration, stage, deployment or authorizer that was just created leaves the API exactly as it was |
| Edits.DeletedOnce | crates/rustack-apigatewayv2-core/src/provider.rs:537-1392 | a delete fails exactly when the record is not there, and so does a second one |
| Edits.UpdatesSettle | crates/rustack-apigatewayv2-core/src/provider.rs:308-1363 | an update fails only for a missing record; one that gives nothing changes nothing, and a repeated one nothing more |
| Edits.UpdatedRoute | crates/rustack-apigatewayv2-core/src/provider.rs:405-534 | a route with every field updated is the route created with those fields |
| Edits.UpdatedStage | crates/rustack-apigatewayv2-core/src/provider.rs:819-941 | the same for a stage; a second create of it is a conflict |
| Edits.UpdatedOthers | crates/rustack-apigatewayv2-core/src/provider.rs:582-1363 | the same for integrations and authorizers |
| Edits.RouteStored | crates/rustack-apigatewayv2-core/src/provider.rs:405-455 | a created route can be read back as it was asked for, and the others as they were |
| Edits.ReferencesCleared | crates/rustack-apigatewayv2-core/src/provider.rs:759-1392 | a delete clears the references to its record and no other |
| Edits.StagePointed | crates/rustack-apigatewayv2-core/src/provider.rs:987-1027 | a new deployment is what the named stage points at, and no other stage |
| Edits.NotDeployed | crates/rustack-apigatewayv2-core/src/provider.rs:308-1392 | operations on anything but routes and integrations add no deployment but the one asked for |
| Edits.QuickCreated | crates/rustack-apigatewayv2-core/src/provider.rs:167-294 | an API created with a target has one integration with it and one route to that, by default the default route; without a target it has neither |
| Edits.StoreUndone | crates/rustack-apigatewayv2-core/src/provider.rs:167-1868 | deleting an API, domain name or VPC link that was just created leaves the store as it was, tags included |
| Edits.TagsStored | crates/rustack-apigatewayv2-core/src/provider.rs:167-1798 | the tags of a new record stand under its ARN and change no other |
| Provider.DeployStages | crates/rustack-apigatewayv2-core/src/provider.rs:130-160 | the loop over the stages, in any order and with colliding ids |
| Provider.ClearTargets | crates/rustack-apigatewayv2-core/src/provider.rs:778-784 | clears the target of exactly the routes that name the integration |
| Provider.ClearDeployments | crates/rustack-apigatewayv2-core/src/provider.rs:1066-1073 | clears the deployment of exactly the stages that name it |
| Provider.ClearAuthorizers | crates/rustack-apigatewayv2-core/src/provider.rs:1385-1390 | clears the authorizer of exactly the routes that name it |
| Provider.GenerateId | crates/rustack-apigatewayv2-core/src/storage.rs:24-37 | ten lower-case letters or digits |
| Provider.ApiGateway.CreateApi | crates/rustack-apigatewayv2-core/src/provider.rs:167-294 | refuses an empty name; otherwise a fresh record, with its default integration and route when a target is given |
| Provider.ApiGateway.DeleteApi | crates/rustack-apigatewayv2-core/src/provider.rs:370-382 | removes the API and its tags |
| Provider.ApiGateway.CreateRoute | crates/rustack-apigatewayv2-core/src/provider.rs:405-455 | adds the route and deploys |
| Provider.ApiGateway.UpdateRoute | crates/rustack-apigatewayv2-core/src/provider.rs:478-534 | changes the fields that are given and deploys |
| Provider.ApiGateway.DeleteRoute | crates/rustack-apigatewayv2-core/src/provider.rs:537-557 | removes the route and deploys |
| Provider.ApiGateway.CreateIntegration | crates/rustack-apigatewayv2-core/src/provider.rs:582-653 | adds the integration and deploys |
| Provider.ApiGateway.UpdateIntegration | crates/rustack-apigatewayv2-core/src/provider.rs:677-756 | changes the integration and deploys |
| Provider.ApiGateway.DeleteIntegration | crates/rustack-apigatewayv2-core/src/provider.rs:759-790 | removes the integration, clears the routes that target it, and deploys |
| Provider.ApiGateway.CreateStage | crates/rustack-apigatewayv2-core/src/provider.rs:819-872 | refuses an existing name; otherwise adds the stage |
| Provider.ApiGateway.UpdateStage | crates/rustack-apigatewayv2-core/src/provider.rs:895-941 | changes the fields that are given |
| Provider.ApiGateway.CreateDeployment | crates/rustack-apigatewayv2-core/src/provider.rs:987-1027 | adds the deployment and points the named stage at it, if there is one |
| Provider.ApiGateway.DeleteDeployment | crates/rustack-apigatewayv2-core/src/provider.rs:1050-1075 | removes the deployment and clears the stages that name it |
| Provider.ApiGateway.DeleteAuthorizer | crates/rustack-apigatewayv2-core/src/provider.rs:1366-1392 | removes the authorizer and clears the routes that name it |
| Provider.ApiGateway.Serve | crates/rustack-apigatewayv2-core/src/provider.rs:90-1868 | any sequence of requests and snapshot imports is a run of the store |
| Storage.SortedValues | crates/rustack-apigatewayv2-core/src/storage.rs:391-399 | all records in the order of their ids, whatever the order of iteration |
| Storage.ApiStore.ExportSnapshot | crates/rustack-apigatewayv2-core/src/storage.rs:60-67 | importing the export reproduces the store if and only if its keys are the ids of its records |
| Storage.ApiStore.ImportSnapshot | crates/rustack-apigatewayv2-core/src/storage.rs:70-88 | replaces the whole store and keys every record by its id |
| Storage.RoundTrip | crates/rustack-apigatewayv2-core/src/storage.rs:60-88 | the import of an export is the exporting store |
| Storage.ExportUnique | crates/rustack-apigatewayv2-core/src/storage.rs:391-410 | a store has one export: it does not depend on map iteration |
| Storage.ImportExport | crates/rustack-apigatewayv2-core/src/storage.rs:60-88 | per map: the round trip holds exactly when keys are ids |
| Storage.Transfer | crates/rustack-apigatewayv2-core/src/storage.rs:60-88 | any store, whatever it held, becomes the exporting one |
| Router.MatchPath | crates/rustack-apigatewayv2-http/src/router.rs:50-69 | segment by segment, with the parameters taken |
| Router.ResolveOperation | crates/rustack-apigatewayv2-http/src/router.rs:79-89 | finds a route exactly when one serves the request, and the answer is that of any that does |
| Router.FirstMatch | crates/rustack-apigatewayv2-http/src/router.rs:79-89 | the loop returns the first route that serves the request |
| Router.Unambiguous | crates/rustack-apigatewayv2-model/src/operations.rs:277-644 | no request is served by two routes of the table |
| Router.FilledServed | crates/rustack-apigatewayv2-http/src/router.rs:50-89 | a pattern filled with slash-free values resolves to its own route with exactly those parameters |
| Router.ServedFilled | crates/rustack-apigatewayv2-http/src/router.rs:50-89 | a request that is served had its path made from the pattern with the parameters it resolved to |
| Router.MatchFilled | crates/rustack-apigatewayv2-http/src/router.rs:50-69 | matching a filled pattern gives the values back |
| Router.FillMatched | crates/rustack-apigatewayv2-http/src/router.rs:50-69 | filling the pattern with the matched parameters gives the path back |
| Router.EntryIndexed | crates/rustack-apigatewayv2-model/src/operations.rs:277-644 | each method and pattern occurs once in the table |
| Router.EntryStatus | crates/rustack-apigatewayv2-model/src/operations.rs:277-644 | the success status of every entry is the one of its method: 201 for a create, 204 for a delete, 202 for that of a VPC link, 200 otherwise |
| Metadata.Prescan | tools/github-action/metadata.py:31-52 | the scan of the raw text, as an automaton |
| Metadata.ScanExact | tools/github-action/metadata.py:31-52 | a document, with any white space and escapes, is accepted exactly when it is nested at most eight deep and every string fits as written; it is refused for its depth only if it is too deep, for a string only if one is too long |
| Metadata.ValueScanned | tools/github-action/metadata.py:31-52 | at any depth, a value leaves the scan where it was, or is refused for what is wrong with it |
| Metadata.CheckMembers | tools/github-action/metadata.py:71-84 | the worklist ends and accepts exactly the values with few enough members whose strings all fit; each error is of a limit that is broken |
| Metadata.DecodedFits | tools/github-action/metadata.py:71-78 | decoding escapes never makes a string longer in bytes |
| Metadata.LengthExact | tools/github-action/metadata.py:37 | sizes are those of the UTF-8 encoding |
| Metadata.EscapeRead | tools/github-action/metadata.py:68 | a character of the basic plane is read back from its escape, in either case of the digits |
| Metadata.SurrogatePairRead | tools/github-action/metadata.py:68 | a character beyond it is read back from the escapes of its two surrogates |
| Metadata.ShortRead | tools/github-action/metadata.py:68 | the escapes of one letter are those of section 7 of RFC 8259 |
| Metadata.MemberInside | tools/github-action/metadata.py:42-49 | what is in an object lies deeper than that, and fits if the whole does |
| Metadata.ItemInside | tools/github-action/metadata.py:42-49 | the same for a list |
| Metadata.DuplicateRefused | tools/github-action/metadata.py:53-59 | an object with two members of the same key is refused, however the keys are escaped |
| Metadata.LongKeyRefused | tools/github-action/metadata.py:53-59 | and so is one with a key of more than 256 bytes |
| Metadata.ScannedValuesFit | tools/github-action/metadata.py:71-78 | after the scan only lone surrogates are left for the worklist's string check to find |
| Metadata.Document | tools/github-action/metadata.py:22-85 | for any bytes: accepted exactly when the policy and byte budget hold, they decode and parse, and the document is within all limits, with its meaning returned; every error is of a condition that fails |

## Left out

- Snapshot.Recovered: archive validation is an oracle with three verdicts; the archive format, its encoding and the budget it counts are not modelled.
- SnapshotRoot.Root.LoadBefore: the manifest and each import succeed or fail by a draw, recorded in order; the lease on the root, timing metrics and parallelism of the imports are not modelled.
- SnapshotRoot.Root.Live: which generation a crash leaves is told for runs without read errors; after one, Snapshot.RejectedTarget says what recovery does. What files a staged directory holds is drawn when it is written.
- SnapshotRoot.Root.CleanupStaleStaging: names are slots, so a name that is a prefix of another name's leftovers is not modelled.
- SyncTree.Sync: one failing set of paths is fixed for the whole call; files that change while they are synced are not modelled.
- EpochSeconds.Parse: the range of representable timestamps is an interval that contains zero; the optional-member adapter is a wrapper and left out.
- EpochSeconds.RoundTrip: embedding the text into a JSON document is left to the serializer, which is not part of this model.
- Canonical.BuildCanonicalQueryStringNormalized: the UTF-8 check stands for the standard library's decoder; assembling the whole canonical request and HMAC are left out.
- CanonicalHeaders.BlockCollisionFree: header names hold no colon and no line break, as in section 5.1 of RFC 9110.
- CanonicalHeaders.BuildCanonicalHeaders: lowercasing is a map of characters, which covers the ASCII names of HTTP but not case mappings to several characters; the list of signed names is a plain sort and join and left out.
- StepFunctionsApi.Conservation: page commands, expiry and the request itself change no permit and are left out; permits are counted, since they cannot be told apart.
- StepFunctionsApi.ApiSupervisor.Shutdown: the answer of the joined root is given from outside; diagnostics are left out.
- StepFunctionsBridge.NothingStartsAfterStop: nothing is claimed between the call of `close` and the manager noticing it; worker internals are an outcome given from outside.
- Workflows.WorkflowSupervisor.Drive: the answers of the owners and of the archive are arbitrary; configuration and status JSON are left out.
- Shapes.CollectedExactly: one direction only past the bound: when an id with several referrers is missed has no condition of its own; keys of maps refer to nothing in the theorems about some order, as Smithy keys are strings.
- TypeReferences.ReferencesExact: identifiers are ASCII, as the names of Smithy shapes are; a cyclic list or map chain, on which the printer does not end, is excluded.
- TypeReferences.FieldNamesImported: which fields each category holds, variants, error types, timestamp formats, snake and Pascal case are left out.
- Provider.StepExact: fields no operation here reads, timestamps, models, route responses, API mappings, tag operations and domain name updates are left out; they hold no reference that is kept resolved.
- Provider.ApiGateway.CreateApi: a generated id that is already in use replaces that record, as in the source; that it is unlikely is not modelled.
- Provider.ApiGateway.Serve: each handler is one atomic step; interleaving inside concurrent maps is not modelled.
- Storage.RoundTrip: the serialized form of a record is not modelled, only its contents.
- Router.ResolveOperation: percent decoding of the parameters happens in the caller and is left out.
- Metadata.Document: decoding and parsing are libraries: what they make of the bytes is given from outside, as any text of that length and any document with that text, or as a refusal.
- Metadata.Prescan: which of several violations is reported first follows the text and has no statement of its own.
- The Action's identifier, endpoint and container checks, the service routers, command line, gateway JSON and text emission are single-branch or wrapper code.
