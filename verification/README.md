# A verified model of trashd

trashd moves deleted files into a FreeDesktop trash instead of unlinking them. An
`LD_PRELOAD` hook and a seccomp supervisor catch deletions, a trash store keeps data and
`.trashinfo` sidecars, an audit daemon logs what was deleted, and a command line tool
compresses and restores. These modules model the parts of it that are algorithms and
protocols, and prove what they are for.

| module | what it models |
|---|---|
| `Glob`, `Patterns` | the wildcard matcher and its fast paths |
| `Filter` | the BPF program and the machine that runs it |
| `Session` | watchdog, supervisor generations and the shared Landlock bit, as one step system |
| `WaitLoop` | the orchestrator's wait loop beside a moving process forest |
| `TrashNames`, `TrashAttempt` | names for new entries, and one whole attempt to trash a file |
| `Compress`, `Marker` | in-place compression and its undoing, crash by crash, and the marker's line in the sidecar |
| `TextCodec`, `LineText`, `TrashInfo`, `DirectorySizes`, `OpLog` | percent escapes, lines, sidecars, the size cache, the operation log |
| `FanEvents`, `AuditLoop` | kernel event bytes, and the audit daemon's loop over them |
| `Bypass`, `ProcStat`, `Mounts` | process ancestry, stat lines and the mount table |
| `Bytes`, `Wrappers` | machine integers, UTF-8, optional values |

`dafny verify dfyconfig.toml` checks everything.

Protocols whose steps interleave (`Session`, `WaitLoop`) are state machines: a run is any sequence
of actions the state allows, and a crash or an exit may come between any two. One call against a
moving file system (`TrashAttempt`, `Compress`) is a class whose every system call first lets the
environment take a turn; the turns are an arbitrary function of time, so a theorem holds for all of
them, and what fails is told by the turns alone. A loop of the program is a loop here, proved equal
to a recursive function or to a declarative meaning.

## What the proofs found

- The carriage return. `record_directory` copies rows line by line; a kept row whose name ends in a
  bare carriage return loses it on the next read. `DirectorySizes.CrRowIsRenamed` is a concrete
  cache in which another row is renamed. `DirectorySizes.RecordUpdatesOneName` says exactly when the
  map is still updated at one name only, `DirectorySizes.OtherRowsSurvive` when every row is kept as
  it was. Rows trashd writes are never of that kind.
- The stale marker. While the marker is set and the data not yet swapped, plaintext that looks
  compressed would be decoded. `Compress.StoredFile.CompressBeforePublish` says, by the turns alone,
  exactly when an attempt goes through a state that a crash would leave unrecovered: another program
  writes such content while the marker is set, or the content had the magic and its first bytes
  could not be read, or a write falls into the turn of the rename and is replaced.
  `Compress.LateWriterRun`, `Compress.BlindHeaderRun` and `Compress.OverwrittenWriterRun` are three
  runs that do; `Compress.QuietAttemptIsSafe` shows that with a readable header and no writer after
  the recheck none does. `Compress.StoredFile.DecompressBeforeCommit` says the same of the way back,
  where plaintext that itself looks compressed stands marked until its marker goes
  (`Compress.WhoLosesTheWayBack`), and a write in the turn of the rename is lost
  (`Compress.LateWriteIsLost`).
- The late return. `set_compression_marker` leaves every other byte as it is, yet a sidecar whose
  last line gives the path and ends in a bare carriage return loses it: the line feed put behind it
  makes it part of the line end. `Marker.SettingKeepsTheRest` gives the exact condition for every
  sidecar that reads at all, `Marker.LateReturnIsTaken` one on which it happens. Sidecars trashd
  writes are never of that kind.
- The chunk at the cut. The log reader reads one more chunk when the cut falls exactly on a chunk
  boundary, since it has to see the line feed before it, and only then (`OpLog.ReadLogTail`);
  `OpLog.ExtraChunkWitness` is such a log.
- The borrowed label. The operation log escapes no spaces, so a field that holds the label of the next
  one reads like two fields: `OpLog.LabelsCanBeForged` gives, for all parts, two restores that are
  written alike. `OpLog.OperationsDiffer` shows that a space in a field that others follow is needed
  for that.
- The overlooked check. `try_trash` looks at the source once more before the rename, but goes on when
  that `lstat` fails. `TrashAttempt.Disk.TryTrash` says exactly what was moved then, and
  `TrashAttempt.OverlookedCheckRun` is a run in which a file is trashed that the hook did not see.
- The name file. The supervisor still matches a process by its name file when its stat line
  cannot be read; the preload does not. `Bypass.LayersDecideAlike` states exactly when this shows,
  and `Bypass.LayersDiffer` gives a process on which it does.
- The component form. `*/name` accepts more than the general rule, as its authors intend;
  `Patterns.ComponentFormWidens` says by how much.

## Model

| member | source | states |
|---|---|---|
| Glob.GlobMatch | crates/trashd-preload/src/lib.rs:651-707 | The backtracking matcher terminates and accepts exactly the texts that can be cut into one piece per pattern token, for all patterns and texts |
| Glob.MatchClass | crates/trashd-preload/src/lib.rs:709-757 | A bracket expression's verdict and end are those of one parse of the pattern, so the end does not depend on the character; an unterminated one is reported as such |
| Glob.NewStarSubsumes | crates/trashd-preload/src/lib.rs:651-707 | Once a later `*` is reached, every alternative start of the earlier one is covered by it: remembering one `*` loses nothing |
| Glob.MatchesRun | crates/trashd-preload/src/lib.rs:651-707 | A star-free run matches exactly as many characters as it has tokens, one by one |
| Glob.WrittenClass | crates/trashd-preload/src/lib.rs:709-757 | For every list of single characters and ranges as written between brackets: the bracket expression stands for one character between the ends of one of them, or with `!` or `^` for one that is not; a `]` in first place is a member |
| Glob.RangePattern | crates/trashd-preload/src/lib.rs:745 | `[a-b]` accepts exactly the texts of one character between the two, ends included |
| Glob.WrittenUnclosed | crates/trashd-preload/src/lib.rs:684-692 | A `[` that no `]` closes stands for itself |
| Glob.WrittenStar | crates/trashd-preload/src/lib.rs:658-664 | `*` and a pattern accept what the pattern accepts after any number of characters |
| Glob.AnyPattern | crates/trashd-preload/src/lib.rs:665-669 | `?` accepts exactly the texts of length 1 |
| Glob.EscapedMatchesItself | crates/trashd-preload/src/lib.rs:671-677 | Escaping every character gives a pattern for exactly that text |
| Glob.LastBackslash | crates/trashd-preload/src/lib.rs:671-699 | A backslash that ends the pattern stands for itself |
| Glob.PlainMatchesItself | crates/trashd-preload/src/lib.rs:684-699 | A text without special characters, but for a `[` that is not closed, is a pattern for exactly itself |
| Patterns.FastPathsChangeNothing | crates/trashd-common/src/config.rs:464-504 | For every pattern but the `*/name` form the fast paths give the verdict of the general rule |
| Patterns.ComponentFormWidens | crates/trashd-common/src/config.rs:464-504 | For `*/name`: the verdict is "some whole component is name", the rule is "ends in /name", and the rule implies the verdict |
| Patterns.ComponentCoversDescendants | crates/trashd-common/src/config.rs:464-504 | Everything below a directory called name is matched by `*/name` |
| Patterns.PatternMatchesMeaning | crates/trashd-preload/src/lib.rs:606-646 | The whole function with home expansion, for every pattern and path: no match without a home; for `*/name` some whole component of the path is name; for all others the general rule |
| Filter.Interpret | crates/trashd-seccomp/src/filter.rs:302-347 | The interpreter loop computes the recursive meaning of a program, or reports that it would leave the program or load elsewhere |
| Filter.BuildRetirementFilter | crates/trashd-seccomp/src/filter.rs:214-245 | Pushing and patching in a loop yields the retirement section, every jump landing just behind it |
| Filter.BuildFilter | crates/trashd-seccomp/src/filter.rs:186-209 | The concatenated program for every cookie |
| Filter.PatchedJumpsFit | crates/trashd-seccomp/src/filter.rs:237-243 | Every patched jump fits in eight bits |
| Filter.TestChain | crates/trashd-seccomp/src/filter.rs:186-209 | A chain of load-and-compare pairs goes to the hit when all tests hold and to the miss otherwise |
| Filter.JumpTable | crates/trashd-seccomp/src/filter.rs:119-181 | A row of equality jumps goes to the target of the first equal value |
| Filter.RetirementSectionDecides | crates/trashd-seccomp/src/filter.rs:214-245 | The section allows exactly the site-bound retirement call and falls through to what follows on anything else |
| Filter.ProofSectionDecides | crates/trashd-seccomp/src/filter.rs:186-209 | The section answers the proof errno exactly for the cookie and falls through otherwise |
| Filter.BaseSectionDecides | crates/trashd-seccomp/src/filter.rs:119-181 | Foreign architectures, x32 and io_uring get ENOSYS, the trapped calls are notified, the rest is allowed |
| Filter.ProgramIsDecisionTable | crates/trashd-seccomp/src/filter.rs:119-245 | For every cookie and every seccomp_data the program stays in bounds, terminates and returns the decision table's verdict |
| Filter.EveryDeletionIsSeen | crates/trashd-seccomp/src/filter.rs:119-245 | A native deletion is notified unless, and only unless, it is the site-bound retirement call |
| Session.AtMostOneReceiver | crates/trashd-seccomp/src/watchdog.rs:126-241 | In every run in which no wait fails for a living supervisor, at most one process receives from the listener, and at most one worker lives |
| Session.OneWorkerExactly | crates/trashd-seccomp/src/watchdog.rs:126-241 | At most one worker, a starting supervisor included, lives in every state of a run if and only if no wait of the run fails while the awaited supervisor lives |
| Session.FailedWaitDoublesReceivers | crates/trashd-seccomp/src/watchdog.rs:126-241 | After a wait that fails for a living supervisor two processes receive: at once, or when that supervisor is past its startup |
| Session.RestrictionEndsTrashing | crates/trashd-seccomp/src/landlock.rs:61-81 | Once a restriction was answered CONTINUE by any worker, no later deletion is answered as trashed by any worker, nor is one being moved |
| Session.FailedWaitBreaksTheOrder | crates/trashd-seccomp/src/watchdog.rs:126-215 | Why the exclusion needs such waits: were one to fail for a living supervisor, there would be a run with two receivers and a trashing after the restriction |
| Session.UninitializedTrackingTrashesNothing | crates/trashd-seccomp/src/landlock.rs:61-81 | Without the shared bit nothing is trashed and no restriction let through, failed waits included |
| Session.EveryNotificationAccounted | crates/trashd-seccomp/src/supervisor.rs:187-229 | In every run a received notification is answered, or its target is gone, or a live worker holds it, or its worker died holding it; never answered twice |
| Session.DeclinedHandoffGetsEnosys | crates/trashd-seccomp/src/supervisor.rs:355-383 | A marked deletion that anyone declines gets ENOSYS, never CONTINUE |
| Session.RestrictedHandoffGetsEnosys | crates/trashd-seccomp/src/supervisor.rs:244-383 | Once nothing may be trashed, or from a serving watchdog, whatever answers a live marked deletion with valid flags answers ENOSYS, in every run with harmless waits, unless the kernel fails the check of its id |
| Session.FailedCheckLetsThrough | crates/trashd-seccomp/src/supervisor.rs:264-270 | And then the deletion is let through |
| Session.HandlerMakesProgress | crates/trashd-seccomp/src/supervisor.rs:244-353 | Every own step of a supervisor brings its answer closer, and it is sent when the count reaches zero |
| Session.WatchdogMakesProgress | crates/trashd-seccomp/src/watchdog.rs:216-262 | So does every step of a watchdog that serves the listener |
| Session.EveryWorkerAnswers | crates/trashd-seccomp/src/supervisor.rs:187-383 | From every reachable state: a supervisor or watchdog that holds a notification and gets to take at most five steps of its own without dying or panicking has it answered, or its target is gone, however the others interleave |
| Session.DecidedAnswerIsSent | crates/trashd-seccomp/src/supervisor.rs:244-353 | In every run: what a supervisor decides about its notification is what is answered, whoever sends it and whatever happens in between, unless its handler panics. Policy and what is left to the kernel get CONTINUE, a trashed entry success, a refusal its error, everything declined, by its gates, an unreadable path or the pinned mutation, the answer of a decline |
| Session.AnswersHaveReasons | crates/trashd-seccomp/src/supervisor.rs:244-353 | In every run: success is answered only if some step captured the path and the entry was trashed, an error but by a decline only if that step refused with it, and before it a step found the notification standing, its target one to lend credentials to, and no restriction |
| Session.WatchdogDeclines | crates/trashd-seccomp/src/watchdog.rs:216-262 | In every run what a serving watchdog receives is declined: a setup goes on if it can be recorded, a marked deletion gets ENOSYS, anything else CONTINUE |
| Session.DeclineTable | crates/trashd-seccomp/src/supervisor.rs:355-383 | The same by call numbers, mark and error numbers |
| Session.TrappedAre | crates/trashd-seccomp/src/supervisor.rs:355-364 | What the filter traps is exactly what a worker answers as a deletion or a setup |
| Session.FlagsAreBits | crates/trashd-seccomp/src/supervisor.rs:349-353 | An unlinkat is one the kernel rejects itself exactly if a flag bit but that for directories is set |
| Session.StepKeepsOrder | crates/trashd-seccomp/src/supervisor.rs:244-383 | Every action but a wait that fails for a living supervisor keeps the one-receiver and restriction order invariant |
| Session.StepAccounts | crates/trashd-seccomp/src/supervisor.rs:187-229 | Every action keeps the account of who holds or answered which notification |
| WaitLoop.ReturnsOnlyWhenAllAreGone | crates/trashd-seccomp/src/main.rs:808-1003 | The loop returns only when nothing the command ever forked is left, alive or unreaped, and with the command's own status |
| WaitLoop.GoneForGood | crates/trashd-seccomp/src/main.rs:808-1003 | And nothing of it can appear afterwards |
| WaitLoop.StatusNeverLost | crates/trashd-seccomp/src/main.rs:808-1003 | The command stays an unreaped child until its status is taken, so the status is never made up |
| WaitLoop.SignalsReachOnlyOurChildren | crates/trashd-seccomp/src/main.rs:780-795 | Every forwarded signal goes to a process that is at that moment our unreaped child |
| WaitLoop.CommandComesFirst | crates/trashd-seccomp/src/main.rs:780-795 | In every run, as long as the command's status is not taken, a forwarded signal goes to the command, still our unreaped child, and to nobody else |
| WaitLoop.SignalReachesAll | crates/trashd-seccomp/src/main.rs:775-795 | A forwarded signal has reached the command, alone, if it is watched, and else every watched child of the session, each once and nobody else, by the time the next one is taken up, however the forest moves meanwhile |
| WaitLoop.FiredIsNotPolledAgain | crates/trashd-seccomp/src/main.rs:808-1003 | What one poll reported is reaped, dropped or parked before the next poll |
| WaitLoop.OnlyFiredIsParked | crates/trashd-seccomp/src/main.rs:808-1003 | In every run a descriptor is left out of a poll only after a poll has reported it, and no poll begins while a forwarded signal is waiting |
| WaitLoop.OldestIsMine | crates/trashd-seccomp/src/main.rs:797-806 | As long as the command's lineage lives, a member of it is the orchestrator's own child: the visible children are enough to wait for |
| TrashNames.CollisionNames.Next | crates/trashd-common/src/trash_id.rs:26-42 | The timestamped name once, then one name per drawn number |
| TrashNames.Sequence.Draw | crates/trashd-common/src/trash_id.rs:44-64 | Draws are consecutive up to the last number, and never 0 |
| TrashNames.CandidateFits | crates/trashd-common/src/trash_id.rs:26-42 | A candidate with its sidecar suffix fits 255 bytes exactly when the suffix leaves room, and truncation keeps valid UTF-8 |
| TrashNames.EveryTriedNameFits | crates/trashd-common/src/trash_id.rs:11-42 | Every candidate fits beside its sidecar, for every process and sequence number; `TrashAttempt.Disk.UniqueId` returns only such names |
| TrashNames.CandidatesDiffer | crates/trashd-common/src/trash_id.rs:26-42 | Different numbers give different names however the basename is shortened |
| TrashAttempt.Disk.TryTrash | crates/trashd-preload/src/lib.rs:1645-1920 | For every pattern of failures and of other tools' moves, in terms of the turns alone: Trashed means the source is gone and a version of what the hook saw is stored, with its sidecar, under a fresh name that fits and keeps valid UTF-8, overlooking only a change of the source in the turn of the call that removes it, a failed check before the rename, or others putting their file over the copy; any other outcome takes nothing and leaves no file or sidecar of ours unless a call that undoes one of our steps failed; while nobody touches the source path it loses exactly what is trashed; no entry of others is changed; when nothing is in the way the file is trashed; and when nobody else moves before its answer is known, the first rename alone decides between moved, copied and left, and the look at the source before a copy decides by what it sees: another inode is refused with EBUSY, never left to the real unlink. A deletion is refused only after a rename was refused in a way that calls for a copy; it is left to the real unlink when the first sidecar cannot be created, or under a free basename not be written, when the source was replaced before the rename, and when eight names were lost |
| TrashAttempt.Disk.ErrorsThatCallForCopy | crates/trashd-preload/src/lib.rs:1826-1835 | The four errors of a rename after which a file is copied, by their numbers |
| TrashAttempt.Disk.ClaimLoop | crates/trashd-preload/src/lib.rs:1757-1826 | Another round only while somebody else holds the data name or the kernel says so, and never more than eight; what was moved is what the hook saw, up to the same exceptions |
| TrashAttempt.Disk.ClaimAndRename | crates/trashd-preload/src/lib.rs:1761-1826 | One round: the sidecar is in place before the data moves, what moved is what the hook saw up to the same exceptions, and a round that gives up leaves no claim unless its removal failed |
| TrashAttempt.Disk.MoveIn | crates/trashd-preload/src/lib.rs:1778-1826 | The recheck and the rename: while nobody else moves, the rename's errno alone decides between moved, occupied and refused |
| TrashAttempt.Disk.UniqueId | crates/trashd-preload/src/lib.rs:1927-1994 | Terminates when the occupied names are finite; a claimed name is the shortened basename or a collision name made from it, fits 255 bytes beside its sidecar and is not cut inside a character; it was free in info/, and is free in files/ unless the lstat that looked there failed; no other claim is left unless its removal failed; a free basename is claimed at once |
| TrashAttempt.Disk.CopyAndRetire | crates/trashd-preload/src/lib.rs:1827-1920 | Across devices: the source goes only when a copy of a version of what the hook saw was stored, the version that goes unless the source changed in the turn of the unlink; the copy stays unless others put theirs over it; every failure takes the copy and the sidecar back unless that fails; on calm turns exactly regular files and links are trashed; the first look at the source decides by its own turn: failed or gone, and what cannot be copied, is left to the real unlink, another inode is refused with EBUSY, and so is a regular file seen to be replaced before its copy has failed |
| TrashAttempt.Disk.CopyFile | crates/trashd-preload/src/lib.rs:1882-1916 | A regular file is copied and retired; once the path is seen to name another version, the deletion is refused and never left to the real unlink |
| TrashAttempt.Disk.CopyRegular | crates/trashd-preload/src/lib.rs:1525-1584 | A successful copy holds exactly the content of one version of the wanted inode, unless others put their file in its place |
| TrashAttempt.Disk.RetireCopiedSource | crates/trashd-preload/src/lib.rs:1595-1618 | The source is unlinked only while it still is the copied version, up to a change in the turn of the unlink itself; otherwise copy and sidecar go unless a call that removes them fails; another version is answered EBUSY, and an unlink that fails with its own error |
| TrashAttempt.Disk.RemoveOwnedCopy | crates/trashd-preload/src/lib.rs:1586-1593 | Whatever stands under the name by now, it is removed exactly when the lstat sees the identity we created and the removal does not fail; so a file that others put in its place goes only if it has that identity or was put there in the turn of the removal |
| TrashAttempt.OverlookedCheckRun | crates/trashd-preload/src/lib.rs:1778-1786 | A run that trashes a file the hook did not see: the check before the rename fails and is passed over |
| TrashAttempt.DrawnSize | crates/trashd-preload/src/lib.rs:1927-1994 | Tried names never repeat, so a finite set of occupied names runs out: the termination measure of the search |
| TrashInfo.WrittenRecordReads | crates/trashd-common/src/trashinfo.rs:204-349 | A written sidecar reads back with the same path bytes and extensions, the command stripped and trimmed, the date as its text resolves; it is refused exactly when the path has a `.` or `..` segment or the date text resolves to nothing |
| TrashInfo.CommandCannotForge | crates/trashd-common/src/trashinfo.rs:204-235 | No command string changes any other field that is read back |
| TrashInfo.StripsOneByOne | crates/trashd-common/src/trashinfo.rs:208-216 | Each control character of a command is dropped wherever it stands, and every other character stays in its place |
| TrashInfo.OrdinaryIsKept | crates/trashd-common/src/trashinfo.rs:208-216 | A command without any is kept as it is |
| TrashInfo.NoSidecarClimbs | crates/trashd-common/src/trashinfo.rs:282-312 | No file whatever yields a path with a parent component |
| TrashInfo.AppendedTextNeverOverrides | crates/trashd-common/src/trashinfo.rs:263-349 | Whatever is appended to a good file, it is still accepted, with the same path, date and every extension that was set |
| TrashInfo.LaterLinesNeverOverride | crates/trashd-common/src/trashinfo.rs:263-337 | The first occurrence wins, for every field |
| TrashInfo.WrittenMeansPlain | crates/trashd-common/src/trashinfo.rs:291-296 | The check on the encoded segments finds exactly the paths with a dot segment |
| TrashInfo.EntriesTextReads | crates/trashd-common/src/trashinfo.rs:247-349 | A header followed by any entry lines reads as those entries assigned one by one |
| TrashInfo.Serialize | crates/trashd-common/src/trashinfo.rs:204-235 | The pushed text is the lines of the record, each with its line feed |
| TrashInfo.Parse | crates/trashd-common/src/trashinfo.rs:247-349 | The loop with its early rejections computes the fold over the lines |
| TextCodec.EncodeDecodes | crates/trashd-common/src/trashinfo.rs:356-398 | Percent-decoding undoes percent-encoding for every byte string |
| TextCodec.UnreservedAre | crates/trashd-common/src/trashinfo.rs:356-372 | Letters, digits and four marks are written as they are |
| TextCodec.HexDigitsAre | crates/trashd-common/src/trashinfo.rs:356-398 | Escapes are written with upper-case digits and read with either |
| TextCodec.HexDigitsOnly | crates/trashd-common/src/trashinfo.rs:375-398 | And nothing else is read as a digit |
| TextCodec.CharBytesAreUtf8 | crates/trashd-common/src/trashinfo.rs:375-398 | The bytes of a character are the one valid UTF-8 form of its number |
| TextCodec.EncodeText | crates/trashd-common/src/trashinfo.rs:356-372 | The push loop computes the encoding |
| TextCodec.DecodeText | crates/trashd-common/src/trashinfo.rs:375-398 | The index loop computes the decoding, with anything but a full escape left literal |
| LineText.LinesRoundTrip | crates/trashd-common/src/trashinfo.rs:263 | `lines` gives back lines written with line feeds, when none holds a feed or ends in a carriage return |
| LineText.CrIsDropped | crates/trashd-common/src/trashinfo.rs:252-266 | A carriage return before the line feed is no part of the line |
| DirectorySizes.RowRoundTrip | crates/trashd-common/src/directorysizes.rs:97-138 | A written row reads back for every raw name, size and time, and is flagged exactly when no directory can have the name |
| DirectorySizes.DecodersAgree | crates/trashd-common/src/directorysizes.rs:371-403 | On well-escaped names the permissive decoder is the strict one |
| DirectorySizes.PairsThatCount | crates/trashd-common/src/directorysizes.rs:371-390 | An escape is read from two digits in either case, or from a plus sign and one digit |
| DirectorySizes.ParseCache | crates/trashd-common/src/directorysizes.rs:166-191 | The loop computes the map and the malformed flag |
| DirectorySizes.CachedNames | crates/trashd-common/src/directorysizes.rs:43-60 | The names-only pass agrees with the parsed map's keys and flag on every content |
| DirectorySizes.CacheContainsName | crates/trashd-common/src/directorysizes.rs:65-85 | The lookup agrees with the parsed map, and is refused when any row, also a later one, is malformed |
| DirectorySizes.RecordUpdatesOneName | crates/trashd-common/src/directorysizes.rs:279-312 | On a well-formed cache, recording then parsing is the old map updated at exactly that name if and only if each kept row that loses a carriage return leaves the map alone: its shorter name is legal, and the last rows of its longer and its shorter name still say the same |
| DirectorySizes.OtherRowsSurvive | crates/trashd-common/src/directorysizes.rs:297-307 | The list of the other rows reads as before if and only if no kept row ends in a carriage return |
| DirectorySizes.CrRowIsRenamed | crates/trashd-common/src/directorysizes.rs:297-307 | A concrete cache in which recording one directory renames another row |
| DirectorySizes.RebuildReads | crates/trashd-common/src/directorysizes.rs:211-270 | A rebuilt file reads back as the rows it was built from |
| DirectorySizes.RebuildRepairs | crates/trashd-common/src/directorysizes.rs:211-270 | After a complete scan of the data directory a rebuild leaves a well-formed cache, whatever was there |
| DirectorySizes.RebuiltEntries | crates/trashd-common/src/directorysizes.rs:211-270 | A rebuilt cache has one entry for each sidecar of a listed directory whose time is known, with that time, and with the size cached for that very time, or else the one measured now |
| DirectorySizes.SidecarNames | crates/trashd-common/src/directorysizes.rs:211-270 | Exactly the file names that end in `.trashinfo` are sidecars, and what stands before that is the identifier |
| DirectorySizes.RecordAgreesWithRebuild | crates/trashd-common/src/directorysizes.rs:272-312 | When the other rows are current, recording gives the map that the full rebuild gives |
| DirectorySizes.TrashDir.RecordDirectory | crates/trashd-common/src/directorysizes.rs:279-312 | Which file results in each case: repair, no directory, failed stat, failed store, new row |
| DirectorySizes.TrashDir.WriteCache | crates/trashd-common/src/directorysizes.rs:211-270 | The rebuild from sidecars, reusing sizes whose time still agrees |
| OpLog.ReadLogTail | crates/trashd-common/src/oplog.rs:116-149 | For every content, end and N the backwards reader returns exactly the last N lines or reports bad UTF-8; the last chunk it reads reaches the cut, and lies wholly before it if and only if the cut is on a chunk boundary; a read that fails was needed just so |
| OpLog.ExtraChunkWitness | crates/trashd-common/src/oplog.rs:116-149 | A log whose cut is on a chunk boundary, so that a chunk before the cut is read |
| OpLog.TailHoldsLastLines | crates/trashd-common/src/oplog.rs:116-149 | The bytes from the cut on hold exactly the last N lines |
| OpLog.TailStartUnique | crates/trashd-common/src/oplog.rs:116-149 | There is only one such cut |
| OpLog.ValidLogHasValidTail | crates/trashd-common/src/oplog.rs:116-149 | A valid UTF-8 log has a valid tail |
| OpLog.EscapeFieldBytes | crates/trashd-common/src/oplog.rs:200-213 | The push loop computes the escaped field |
| OpLog.EscapesDiffer | crates/trashd-common/src/oplog.rs:191-213 | Different values are written differently |
| OpLog.EscapedBytesAre | crates/trashd-common/src/oplog.rs:200-213 | A backslash is doubled, other bytes outside the printable ones get two lower-case digits, all others stay |
| OpLog.MessageWords | crates/trashd-common/src/oplog.rs:15-86 | What each line says, word by word: the operation, and each field under its own label |
| OpLog.RecordWords | crates/trashd-common/src/oplog.rs:215-222 | The time stamp, the process and the message of a line |
| OpLog.OperationsDiffer | crates/trashd-common/src/oplog.rs:15-86 | Operations without a space in a field that others follow are written differently, up to what a missing command or filter is written as |
| OpLog.LabelsCanBeForged | crates/trashd-common/src/oplog.rs:47-56 | And with one they need not be: for all parts a, b, c the restores of `a to=b` to `c` and of `a` to `b to=c` are written alike |
| OpLog.AppendedRecordsReadBack | crates/trashd-common/src/oplog.rs:191-222 | Operations appended to a log of whole lines, each as its stamped line of escaped fields, are what a tail of the log returns, in order: whatever bytes the fields hold, none can forge another |
| Compress.StoredFile.CompressBeforePublish | crates/trashd-cli/src/commands/compress.rs:217-328 | With every call failing at will and other programs writing at will, in terms of the turns alone: when exactly it swaps, when exactly the marker stays, when an attempt that marks is over, what was written last, and exactly when a crash could leave a state that is not recovered; a run that does not swap is refused or failed by what stood in its way, and leaves the data as its writers left it; a swap holds the compressed form of what was measured, which only a write in the turn of the rename can outdate |
| Compress.QuietAttemptIsSafe | crates/trashd-cli/src/commands/compress.rs:217-328 | With a readable header and no writer after the recheck, no attempt goes through a state that a crash would leave unrecovered |
| Compress.WhoExposesTheMark | crates/trashd-cli/src/commands/compress.rs:241-306 | The content that gets marked could be mistaken only if the header could not be read or somebody wrote between the recheck and the marker |
| Compress.LateWriterRun | crates/trashd-cli/src/commands/compress.rs:217-328 | A run that goes through a misread state: a late writer and otherwise calm turns |
| Compress.BlindHeaderRun | crates/trashd-cli/src/commands/compress.rs:217-328 | Another: content that has the magic, and a header that cannot be read |
| Compress.OverwrittenWriterRun | crates/trashd-cli/src/commands/compress.rs:306-328 | A third: bytes written in the turn of the rename go with the file it replaces |
| Compress.StoredFile.DecompressBeforeCommit | crates/trashd-common/src/store.rs:2621-2740 | The way back with every call failing at will and other programs writing at will, in terms of the turns alone: when exactly it succeeds, what the entry holds then and what was written last, that the marker goes with success only, and exactly when a crash could leave a state that is not recovered; with nobody writing every crash state restores as the entry did, unless the plaintext itself looks compressed |
| Compress.WhoLosesTheWayBack | crates/trashd-common/src/store.rs:2706-2745 | With no write in the turn of the rename, a crash can lose an entry only to a mistakable write while it is marked, or to plaintext put in place that could itself be mistaken |
| Compress.LateWriteIsLost | crates/trashd-common/src/store.rs:2722-2745 | What is written in the turn of the rename is lost unless it is the plaintext itself |
| Marker.SetCompressionMarker | crates/trashd-common/src/store.rs:4079-4094 | The loop drops the marker's lines and appends the new one |
| Marker.MarkerChangesOnlyItself | crates/trashd-common/src/store.rs:4079-4094 | Setting or clearing the marker of a written sidecar reads back exactly like the record written with that marker: nothing else changes and an older marker is gone |
| Marker.ClearingKeepsTheRest | crates/trashd-common/src/store.rs:4079-4094 | Clearing the marker of any sidecar that reads at all changes no other field; the marker is what a line names that is not written as this program writes it, and gone without one |
| Marker.SettingKeepsTheRest | crates/trashd-common/src/store.rs:4079-4094 | Setting the marker of any sidecar that reads at all changes no other field if and only if the path is not given by a last line that ends in a bare carriage return |
| Marker.LateReturnIsTaken | crates/trashd-common/src/store.rs:4088-4092 | A sidecar on which setting the marker changes the path |
| FanEvents.ParseEvents | crates/trashd-daemon/src/main.rs:441-461 | The offset loop computes the records of one read |
| FanEvents.EventsTile | crates/trashd-daemon/src/main.rs:441-461 | The records tile a prefix of the buffer, each declares its own length, and reading stops only where no event starts |
| FanEvents.EventsOfConcat | crates/trashd-daemon/src/main.rs:441-461 | Events laid end to end are read back one by one |
| FanEvents.DeletedObjectKey | crates/trashd-daemon/src/main.rs:542-571 | The walk terminates, never leaves the record, and finds the object's own handle |
| FanEvents.DirectoryAndName | crates/trashd-daemon/src/main.rs:645-742 | The walk terminates, never leaves the record, and finds the parent's handle and the name |
| FanEvents.WalksFindTheFirst | crates/trashd-daemon/src/main.rs:542-742 | For every sequence of information records, in any order and with any padding, the walks find the first of each kind |
| FanEvents.HandleIsInside | crates/trashd-daemon/src/main.rs:542-600 | For every text: a handle that is found lies wholly inside one record of its kind |
| FanEvents.NameIsInside | crates/trashd-daemon/src/main.rs:660-747 | So do a parent's handle and its name, and the name is not empty and has no zero byte |
| AuditLoop.HandleCache.Remember | crates/trashd-daemon/src/main.rs:524-533 | The map and the queue after one insertion; the queue stays the keys without repeats, at most 4096 |
| AuditLoop.RememberedIsConsistent | crates/trashd-daemon/src/main.rs:524-533 | Only the key given changes, and only a full cache drops a key: the front of the queue |
| AuditLoop.QueueIsByAge | crates/trashd-daemon/src/main.rs:524-533 | After any calls the queue is in order of insertion; naming a key again does not move it |
| AuditLoop.EvictedIsOldest | crates/trashd-daemon/src/main.rs:524-533 | After any calls the key that has to go is the one that was put into the cache first |
| AuditLoop.HandleCache.ResolveEventPath | crates/trashd-daemon/src/main.rs:483-490 | A parent is decoded once a batch, or else recalled |
| AuditLoop.ResolvedIsEntry | crates/trashd-daemon/src/main.rs:690-747 | For every cache and record: no path without a name; else the pieces of the directory's path between slashes and then the name, with the directory as it decodes in this batch or was last known; the bare name without one |
| AuditLoop.Daemon.OnRead | crates/trashd-daemon/src/main.rs:296-380 | One turn on a read, from bytes to log: learn, release what was held, scan |
| AuditLoop.Daemon.OnDrained | crates/trashd-daemon/src/main.rs:255-267 | One turn on an empty queue |
| AuditLoop.EveryDeleteOnceInOrder | crates/trashd-daemon/src/main.rs:252-397 | Over every sequence of reads each reported deletion is logged exactly once and in order, or is the tail still held |
| AuditLoop.HeldForOneReadOnly | crates/trashd-daemon/src/main.rs:252-397 | Nothing is held past the next read, and an empty queue leaves nothing held |
| AuditLoop.ReleaseLogsHeld | crates/trashd-daemon/src/main.rs:325-332 | A path already resolved is logged unchanged, with its own process name |
| AuditLoop.ScanKeepsOrder | crates/trashd-daemon/src/main.rs:333-378 | One pass sends a prefix of the deletions to the log and holds the rest |
| AuditLoop.RemovedTreesResolve | crates/trashd-daemon/src/main.rs:297-332 | Whatever the kernel answered before this read and will answer after it: when the read itself can tell the path of each of its deletions, through directories that still decode and the later removals of those that do not, and each directory that is not known yet finds a free slot or an oldest key that the records do not name, nothing is held and every deletion is logged in order with exactly that path, however deep the removed tree; so is every one held before |
| AuditLoop.TruePathIsEntry | crates/trashd-daemon/src/main.rs:297-332 | The path meant there has the pieces of its directory's path, and then its name, where the directory still decodes to that path or a later record removes it, with that as its own path; and there is one exactly if one of the two holds |
| AuditLoop.NestPath | crates/trashd-daemon/src/main.rs:297-332 | However deep the removed tree: the pieces of the directory that is left, and then every name on the way down |
| AuditLoop.EveryPathNamesItsEntry | crates/trashd-daemon/src/main.rs:252-397 | Over every sequence of reads, whatever handles decode to: each logged path is the reported name, as an entry of some directory or alone |
| AuditLoop.ScanIsRight | crates/trashd-daemon/src/main.rs:333-378 | Every line and every held record of a pass has the name of its own process |
| AuditLoop.EveryOverflowOnce | crates/trashd-daemon/src/main.rs:252-397 | Over every sequence of reads each reported overflow is logged once |
| AuditLoop.MaskBits | crates/trashd-daemon/src/main.rs:333-378 | The bytes looked at are the kernel's bits for a deletion, a directory and an overflow |
| AuditLoop.MetadataReads | crates/trashd-daemon/src/main.rs:333-378 | In an event as the kernel lays it out the mask, the process and the information records are found where they are |
| AuditLoop.BatchAsks | crates/trashd-daemon/src/main.rs:483-490 | For every decoder: a batch keeps the answers it got, each from an ask of its own, and goes as if the kernel had never given others |
| AuditLoop.SettledBatch | crates/trashd-daemon/src/main.rs:483-490 | Directories that do not move from the first ask of a batch to its last answer as RemovedTreesResolve wants it, at whatever time they are removed |
| AuditLoop.OthersFit | crates/trashd-daemon/src/main.rs:524-533 | A cache however full fits a batch of at most 4096 directories when it knows none of them yet |
| AuditLoop.RoomFits | crates/trashd-daemon/src/main.rs:524-533 | So does a cache with a slot for every directory |
| AuditLoop.LearningFindsAll | crates/trashd-daemon/src/main.rs:298-324 | Learning newest first leaves the cache with the true path of every removed directory that the batch can tell by the answers it got, a full cache letting go of older keys on the way |
| Bypass.SessionAncestry.BypassedWithin | crates/trashd-seccomp/src/supervisor.rs:641-670 | The cached or refreshed names decide like the walk over the table they were read from |
| Bypass.ProcessBypassed | crates/trashd-seccomp/src/supervisor.rs:674-713 | Without a session the full eleven-level walk; with one, the walk spliced with an ancestry that is at most as old as allowed or read now; so unless the ancestry changed since it was read, exactly the full walk's decision |
| Bypass.SplicedIsFullWalk | crates/trashd-seccomp/src/supervisor.rs:643-713 | While the ancestry is what it was, the spliced walk decides exactly like the full one |
| Bypass.ProcessIsBypassed | crates/trashd-preload/src/lib.rs:490-520 | The preload's loop decides by the same rule over its own names |
| Bypass.PreloadExempts | crates/trashd-preload/src/lib.rs:488-520 | The rule by process chains: the executable is in an exempt place, or of a chain of at most eleven processes from this one, each the parent above 1 in the stat line of the one before, the last goes by an exempt name; and nothing else exempts |
| Bypass.SupervisorExempts | crates/trashd-seccomp/src/supervisor.rs:674-740 | The same for the supervisor, where a process without a stat line goes by its name file |
| Bypass.LayersDecideAlike | crates/trashd-preload/src/lib.rs:488-520 | Both layers decide alike unless a level's stat line cannot be read while its name file names an exempt process |
| Bypass.LayersDiffer | crates/trashd-preload/src/lib.rs:488-520 | A process on which they differ: its stat line cannot be read and its name file says git |
| Bypass.CachedVerdictIsOwn | crates/trashd-preload/src/lib.rs:423-435 | For all numbers the packed verdict answers for exactly one process and parent, and they are the ones it was made for if and only if the parent fits in 31 bits |
| ProcStat.FilledBufferNeverShortens | crates/trashd-common/src/proc_stat.rs:51-67 | For every name and every cut behind it a filled buffer gives the whole line's name and parent exactly when a byte follows the parent, and nothing otherwise |
| ProcStat.WholeLineIsRead | crates/trashd-common/src/proc_stat.rs:51-67 | A line that fits is always read |
| Mounts.FindMountPoint | crates/trashd-common/src/mounts.rs:150-170 | First match in the stable sort by length: the most specific mount, or none if none matches |
| Mounts.ScanForLongest | crates/trashd-preload/src/lib.rs:1478-1517 | The strict-maximum scan gives the most specific mount, or none if none matches |
| Mounts.OneAnswer | crates/trashd-preload/src/lib.rs:1478-1517 | There is only one most specific mount, so both lookups agree on every table |
| Mounts.SortIsStable | crates/trashd-common/src/mounts.rs:150-152 | The sort keeps every row, puts longer paths first and leaves equal lengths in place |
| Mounts.MostSpecificIsDeepest | crates/trashd-common/src/mounts.rs:154-170 | Among canonical mount paths no match has more components than the answer |
| Mounts.StartsWithMeans | crates/trashd-common/src/mounts.rs:164-168 | Between canonical paths: a path starts with the root, with itself, and with what a slash follows in it, and with nothing else |
| Mounts.ComponentsOfRejoined | crates/trashd-common/src/mounts.rs:164-168 | Every list of names is the components of the path they make |
| Mounts.OctalIsUndone | crates/trashd-common/src/mounts.rs:1049-1069 | Any byte in three octal digits behind a backslash is read as that byte |
| Mounts.UnescapeOctal | crates/trashd-common/src/mounts.rs:1049-1069 | The index loop computes the unescaped field |
| Mounts.EscapesAreUndone | crates/trashd-common/src/mounts.rs:1043-1069 | Unescaping undoes the kernel's escapes for every byte string, and an escaped field holds no separator |

## Left out

- Session.AtMostOneReceiver: assumes that waitpid does not fail for a living supervisor. The only signal handler installed ends the process, and ECHILD means there is no child, so neither error can be received for a living one; `Session.OneWorkerExactly` shows that this is exactly what is needed.
- Session.RestrictionEndsTrashing: assumes the same of waitpid.
- Session.RestrictedHandoffGetsEnosys: assumes the same of waitpid.
- Session and WaitLoop are values, not objects: their processes interleave at every step, so fields are updated by actions. `pin`, `broker` and `mem` are oracles with the outcomes the code tells apart; a send that is interrupted and retried is one step.
- WaitLoop.ReturnsOnlyWhenAllAreGone: takes child snapshots as atomic, SIGCHLD as not ignored, process numbers as never reused, and waits as failing only with ECHILD; the broker and interrupted calls are not part of the model.
- TrashAttempt.Disk.TryTrash: other tools may put their file over a copy of ours, but never remove or overwrite sidecars or remove our file without putting one in its place, and the names they will ever claim are finite; the status-change time never repeats, so a version of the source that is gone stays gone. The calls that undo our steps, and the stat of the copy just created that they depend on, have their own failures in a turn. Directory sizing, store preparation and the lock are verdicts given as parameters.
- TrashAttempt.Disk.UniqueId: the 255 bytes are promised for timestamps of 14 digits, which is every year up to 9999.
- TrashNames.Sequence.Draw: nothing is promised about numbers after the counter wraps at 2^64, where it is seeded anew and could repeat; `TrashAttempt` asks for room below that.
- TrashInfo.WrittenRecordReads: hash, compression name and date text are taken to be trimmed and free of line feeds; dates are an abstract writer and reader, and the parser's date memo is not modelled.
- OpLog.ReadLogTail: a failing read is given by an oracle over positions; the file does not change while it is read.
- Compress.StoredFile.CompressBeforePublish: writers hold the file open but do not replace it behind the root lock, every write changes the status-change time, and the codec is abstract.
- Marker.SetCompressionMarker: works on characters where the program works on bytes, which is the same for valid UTF-8.
- AuditLoop.Daemon.OnRead: mount refreshes, the "(skipped)" annotation and flushing are left out; process names are fixed during one batch; what decoding a handle gives is an arbitrary function of time.
- AuditLoop.RemovedTreesResolve: a key the records name that is among the oldest of a full cache is not promised to stay; what a directory of the batch decodes to within the batch, where it is decoded at most once, is an absolute path, and a directory removed in the batch is removed in it once and, if it is decoded in it at all, no longer decodes.
- Bypass.ProcessBypassed: a process table is one snapshot per walk; executable paths and names are text, so lossy conversion of other bytes is not modelled.
- ProcStat.FilledBufferNeverShortens: the name is the raw bytes, before lossy conversion and trimming.
- Mounts.FindMountPoint: works on the table's paths; that the common crate leaves virtual file systems out of its table is not modelled.
- `Config::merge`, `should_skip`, the local policy walk and `policy_skips`: each is settled by reading one branch.
- `dir_size_capped`, the other commands, TOML, locking, ownership checks, path pinning and all raw system calls: not part of this model.
