# rsinit reaper, modelled in Dafny

rsinit is a small init process (PID 1) written in Rust. This project models its reaper: the
event loop that reaps dead processes and escalates signals to orphaned children, together with
the persistent-command bookkeeping that restarts supervised commands. The operating system is
reached only through inputs to the model:

- the answer of `waitpid(None, WNOHANG)` is a `WaitStatus` value;
- the `/proc` directory is a sequence of `ProcEntry` records (file name plus the text of
  `stat`, or the failure to read it);
- the answers of `kill` are a function `KillOracle` from pid and signal to a result;
- the answer of `Command::spawn` is a `Result<UInt32, IoError>`;
- `getpid()` is a constructor argument, and the signal trap's wake-ups are `Wakeup` values.

Modules, following the source:

- `RustStr`: Rust's `i32`/`u32`, `Option`, `Result`, `split_whitespace`, `str::parse::<i32>`
  and the `u32 as i32` cast.
- `Zombie`: `reap` and the classification of a carcass into an `Event`.
- `ProcTable`: `list_children` and the difference `new_children` takes.
- `Orphan`: `OrphanState`, `transition_orphan`, and the two table operations.
- `Command`: `src/command.rs` — the `PersistentCommand` class and its restart policy.
- `Lib`: the reaper of `src/lib.rs` — the `Reaper` class, proved against the pure step
  functions `OnCarcass`, `OnSigchld` and `OnWakeup`.
- `LegacyReaper`: the older reaper of `src/reaper.rs`.

`src/reaper.rs` repeats `reap`, `list_children`, `OrphanState` and `transition_orphan` of
`src/lib.rs` word for word. They are defined once, in `Zombie`, `ProcTable` and `Orphan`, and
used by both reapers.

Behaviour of the code a reader may not expect:

- `Reaper::spawn` in `src/lib.rs` never consults the restart flags or the spawn limit of
  `src/command.rs`. After an error exit or a kill it always respawns a registered command.
  After a clean exit it never respawns.
- After a clean exit, the command is re-keyed to the first new child whenever there is at
  least one new child, not only when there is exactly one (`Lib.CleanExitSparesChildren`).
- After a clean exit with no new child, the registry entry of the dead pid stays.
- `mark_orphans` overwrites the state of a pid that is already in the table, so a pid that was
  already SIGKILLed can be taken back to SIGTERM (`Orphan.RemarkingRestartsEscalation`).
- `list_children` takes the 4th whitespace-separated word of `stat`. A command name holding a
  space, such as `(tmux: server)`, shifts the parent pid to the 5th word, so such a process is
  never found as anyone's child (`ProcTable.SpacedCommandHidesParent`).

## Model

| member | source | states |
|---|---|---|
| RustStr.AsInt32 | src/lib.rs:336 | computes `id as i32`: ids below 2^31 unchanged, larger ids less 2^32 |
| RustStr.AsInt32Wraps | src/lib.rs:336 | `id as i32` keeps the id modulo 2^32, keeps ids below 2^31 unchanged, and maps different ids to different pids |
| RustStr.SplitWhitespace | src/lib.rs:82 | every piece `split_whitespace` yields is non-empty and free of Unicode whitespace |
| RustStr.SplitKeepsText | src/lib.rs:82 | the pieces, put back together, are the input with its whitespace removed, so no text is lost or reordered |
| RustStr.SplitTrailingBlank | src/lib.rs:82 | trailing whitespace, such as the final newline of `stat`, adds no piece and changes none |
| RustStr.SplitJoin | src/lib.rs:82 | splitting a single-space-separated line of words gives back exactly those words |
| RustStr.ParseInt32 | src/lib.rs:70 | a parse succeeds only on an optional sign followed by ASCII digits, and a negative result needs a leading `-` |
| RustStr.ParseShow | src/lib.rs:70 | parsing reads back the decimal rendering of every `i32` |
| Zombie.Reap | src/lib.rs:40-58 | `Exited` yields a carcass with only the status, `Signaled` one with only the signal, both carrying the reported pid; every other answer yields none |
| Zombie.Classify | src/lib.rs:197-235 | status 0 is `ExitSuccess`, any other status `ExitCode`, and a signal without status `ExitSignal`, each an if-and-only-if |
| Zombie.ReapThenClassify | src/lib.rs:195-235 | the verdict on a wait status: clean exactly for `Exited` with 0, error exit for another status, kill for `Signaled` |
| ProcTable.ListChildren | src/lib.rs:63-103 | a pid is listed exactly when some entry has that pid as its numeric name and its stat's 4th field parses to `parent`; entries with other names, unreadable stat or a bad field are skipped |
| ProcTable.ListChildrenAppend | src/lib.rs:63-103 | the scan keeps directory order: scanning two listings in turn gives the two results in turn |
| ProcTable.FieldFour | src/lib.rs:82-83 | on a single-space-separated, newline-terminated line of words, the field parsed is the 4th word |
| ProcTable.WellFormedEntryIsChild | src/lib.rs:77-86 | an entry whose stat has single-space-separated fields, `parent` in field 4 and a final newline is found as a child of `parent`, provided the command name holds no whitespace |
| ProcTable.SpacedCommandHidesParent | src/lib.rs:82-90 | when the command name holds one space, field 4 is the state letter, its parse fails, and the entry is nobody's child |
| ProcTable.NewPids | src/lib.rs:299-304 | the new children are exactly the pids of the scan that are not in the remembered snapshot |
| ProcTable.NewPidsAppend | src/lib.rs:299-304 | the filter keeps the order of the scan |
| ProcTable.NewPidsOfNothing | src/lib.rs:299-304 | against an empty snapshot every child is new, in scan order |
| ProcTable.NewPidsOfSame | src/lib.rs:299-304 | when every listed pid is in the snapshot, nothing is new |
| Orphan.TransitionOrphan | src/lib.rs:114-147 | a single allowed move that keeps the pid: BlissfulIgnorance to HasBeenSentSIGTERM or Errored, HasBeenSentSIGTERM to HasBeenSentSIGKILL or Errored; Errored exactly when that `kill` failed, storing its error; unchanged exactly when no signal is due |
| Orphan.Advance | src/lib.rs:114-147 | a record after a given number of passes, each pass one `transition_orphan` with that pass's `kill` answers |
| Orphan.FixedPointsSendNothing | src/lib.rs:136-145 | HasBeenSentSIGKILL, Errored and Carcass records are left as they are, whatever `kill` would answer |
| Orphan.AdvanceNeverRegresses | src/lib.rs:114-147 | over any number of passes a record only moves forward and keeps its pid |
| Orphan.AdvanceSettles | src/lib.rs:114-147 | after two passes a record sends no more signals and no later pass changes it |
| Orphan.EscalatesToKill | src/lib.rs:116-129 | an untouched orphan whose `kill`s succeed is SIGKILLed at the second pass |
| Orphan.TransitionAll | src/lib.rs:285-291 | the table after one pass: every record replaced by its `transition_orphan` |
| Orphan.TransitionAllSteps | src/lib.rs:285-291 | a pass keeps the key set and moves every record by exactly one `transition_orphan` step |
| Orphan.MarkAll | src/lib.rs:275-279 | the table after the inserts of `mark_orphans`: each given pid set to BlissfulIgnorance, in order |
| Orphan.MarkAllFacts | src/lib.rs:274-279 | marking adds exactly the given pids, sets each to BlissfulIgnorance overwriting its state, and leaves every other entry as it was |
| Orphan.MarkedOrphansAreSignalled | src/lib.rs:274-283 | after `mark_orphans` each marked pid has been sent SIGTERM (or holds the `kill` error), and every other orphan has taken one step |
| Orphan.RemarkingRestartsEscalation | src/lib.rs:276-278 | a SIGKILLed pid that is marked again goes back to SIGTERM or Errored, which the forward order forbids |
| Command.Admit | src/command.rs:57-83 | refused with `MustNotRespawn(reason)` exactly when there is a previous exit whose flag is off; refused with `SpawnLimitReached(limit)` exactly when the flags allow and the counter has reached the limit; never `SpawnFailed` |
| Command.FirstLaunchIgnoresFlags | src/command.rs:57 | with no previous exit the restart flags play no part |
| Command.LaunchesAreCounted | src/command.rs:85-91 | across any sequence of calls the counter rises by exactly the number of calls that reach the OS spawn |
| Command.SpawnLimitHolds | src/command.rs:75-85 | with a limit, the counter never passes it across any sequence of calls, and at most limit minus spawns calls reach the OS |
| Command.RefusedExitsNeverLaunch | src/command.rs:57-72 | calls that all report an exit kind whose flag is off never count and never launch |
| Command.PersistentCommand.New | src/command.rs:16-28 | all three flags false, no limit, no spawns, and the command line kept |
| Command.PersistentCommand.RestartOnSuccess | src/command.rs:30-33 | sets `restart_on_success` and nothing else |
| Command.PersistentCommand.RestartOnError | src/command.rs:35-38 | sets `restart_on_error` and nothing else |
| Command.PersistentCommand.RestartOnSignal | src/command.rs:40-43 | sets `restart_on_signal` and nothing else |
| Command.PersistentCommand.SpawnLimit | src/command.rs:45-48 | sets the limit and nothing else |
| Command.PersistentCommand.Spawn | src/command.rs:50-94 | a refusal returns the `Admit` error and leaves the counter; otherwise the counter rises by one and the result is the child id or `SpawnFailed` with the OS error; `Ok` only after a successful OS spawn; the counter stays within the limit |
| Lib.Rekey | src/lib.rs:319-323 | the entry at `from` moves to `to`, `from` is gone, every other key is unchanged; nothing changes when `from` is not a key |
| Lib.Respawned | src/lib.rs:312-317 | the entry at `p` is removed and, when the spawn succeeds, filed under the new child's pid; every other entry is kept |
| Lib.RegisterAll | src/lib.rs:182-184 | the registry after the initial spawns: each successful spawn files its command under the child's pid, a failed one files nothing |
| Lib.RegisterAllKeys | src/lib.rs:182-184 | after the initial spawns a pid is registered exactly when it was before or a successful spawn returned it |
| Lib.RegisterAllValues | src/lib.rs:182-184 | when every spawn succeeds at distinct pids, each command is registered under its own pid |
| Lib.OnCarcass | src/lib.rs:195-260 | one carcass: classify it, take the new children, mark them and respawn on an error exit or a kill, re-key to the first new child on a clean exit, then drop the pid from the orphans; when the respawn fails, `Err` and the pid stays |
| Lib.OnSigchld | src/lib.rs:193-261 | a SIGCHLD: `OnCarcass` of the reaped carcass, or nothing when `reap` yields none |
| Lib.OnWakeup | src/lib.rs:190-268 | one wake-up: SIGCHLD is handled, any other signal ignored, an elapsed deadline runs one `TransitionAll` pass |
| Lib.CarcassLeavesOrphanTable | src/lib.rs:256-260 | once a carcass is handled, its pid is not in the orphan table |
| Lib.SnapshotIsReplaced | src/lib.rs:295-310 | the children snapshot becomes the new scan, not a merge with the old one |
| Lib.CleanExitSparesChildren | src/lib.rs:248-253 | a clean exit signals nobody, leaves every other orphan as it was, re-keys the command to the first new child if there is one, and does not depend on `kill` or on the spawn result |
| Lib.AbnormalExitMarksNewChildren | src/lib.rs:243-247 | an error exit or a kill respawns the command, fails only when that spawn fails, and sends SIGTERM to each new child (or stores the `kill` error) |
| Lib.AbnormalExitOrphanKeys | src/lib.rs:243-260 | after an error exit or a kill the orphan table holds exactly the older orphans and the new children, less the dead pid unless the respawn failed |
| Lib.AbnormalExitStepsOtherOrphans | src/lib.rs:243-245 | every older orphan other than the dead pid takes exactly one step |
| Lib.ReparentedChildrenAreSignalled | src/lib.rs:237-245 | a child of the init process missing from the snapshot, such as a crashed command's reparented child, is signalled after the crash |
| Lib.Reaper.constructor | src/lib.rs:168-179 | empty orphan table, snapshot and registry, and the given own pid |
| Lib.Reaper.SpawnChild | src/lib.rs:325-340 | on success the command is registered under the child's pid as `i32`; on failure the registry is unchanged and the error returned |
| Lib.Reaper.EnsureProcess | src/lib.rs:312-317 | the registry becomes `Respawned`; the result is an error exactly when `p` was registered and its respawn failed |
| Lib.Reaper.UpdateEnsuredProcessPid | src/lib.rs:319-323 | the registry becomes `Rekey(from, to)` |
| Lib.Reaper.NewChildren | src/lib.rs:295-310 | the snapshot becomes the new scan and the result is `NewPids` of the scan against the old snapshot |
| Lib.Reaper.TransitionOrphans | src/lib.rs:285-291 | the loop over the table's values realises one `TransitionAll` pass, in any order |
| Lib.Reaper.MarkOrphans | src/lib.rs:274-283 | the loop of inserts followed by a pass realises `TransitionAll(MarkAll(...))` |
| Lib.Reaper.HandleSigchld | src/lib.rs:193-261 | state and outcome are those of `OnSigchld` on the old state |
| Lib.Reaper.HandleCarcass | src/lib.rs:197-260 | state and outcome are those of `OnCarcass` on the old state |
| Lib.Reaper.SpareChildren | src/lib.rs:248-260 | the clean-exit branch: re-key to the first new child, then drop the pid from the orphans |
| Lib.Reaper.KillChildren | src/lib.rs:244-260 | the abnormal branch: mark, respawn, and drop the pid unless the respawn failed |
| Lib.Reaper.Step | src/lib.rs:190-268 | state and outcome are those of `OnWakeup`: SIGCHLD is handled, other signals ignored, an elapsed deadline runs one pass |
| Lib.Reaper.Start | src/lib.rs:181-185 | succeeds exactly when every spawn does, then holds the registry of all spawns and the first snapshot; a failure reports one of the spawn errors |
| LegacyReaper.OnCarcass | src/reaper.rs:170-214 | one carcass: on a non-zero status or a signal mark the children listed for its pid and run one pass, then drop the pid from the orphans |
| LegacyReaper.OnSigchld | src/reaper.rs:168-215 | a SIGCHLD: `OnCarcass` of the reaped carcass, or nothing when `reap` yields none |
| LegacyReaper.OnWakeup | src/reaper.rs:165-223 | one wake-up: SIGCHLD is handled, any other signal ignored, an elapsed deadline runs one pass |
| LegacyReaper.CarcassLeavesOrphanTable | src/reaper.rs:211-214 | the carcass's pid leaves the orphan table, and only listed children can be added |
| LegacyReaper.CleanExitMarksNothing | src/reaper.rs:176-187 | status 0 leaves every other orphan as it was |
| LegacyReaper.AbnormalExitMarksListedChildren | src/reaper.rs:186-238 | a non-zero status or a signal marks exactly the children listed for the dead pid and sends each SIGTERM (or stores the error) |
| LegacyReaper.AbnormalExitStepsOtherOrphans | src/reaper.rs:229-246 | every other orphan takes one step of the pass |
| LegacyReaper.ReparentedChildrenEscape | src/reaper.rs:229-238 | when no entry names the dead pid as parent, nothing is marked and a child of the init process stays out of the table |
| LegacyReaper.NoneListed | src/reaper.rs:59-99 | a listing in which no entry names `parent` yields no children |
| LegacyReaper.Reaper.constructor | src/reaper.rs:151-157 | an empty orphan table |
| LegacyReaper.Reaper.MarkChildren | src/reaper.rs:229-238 | the table becomes `TransitionAll(MarkAll(table, ListChildren(pid)))` |
| LegacyReaper.Reaper.TransitionOrphans | src/reaper.rs:240-246 | one `TransitionAll` pass |
| LegacyReaper.Reaper.HandleSigchld | src/reaper.rs:168-215 | the table becomes `OnSigchld` of the old one |
| LegacyReaper.Reaper.Step | src/reaper.rs:165-223 | the table becomes `OnWakeup` of the old one |

## Left out

- `src/main.rs` is not part of this model: it sets up logging and a static command list.
- The signal trap, the one-second deadline and the infinite loops are reduced to `Wakeup` values handled one at a time by `Step`.
- The `Instant` in `HasBeenSentSIGKILL` is dropped; it serves only a log line.
- `waitpid`, `kill`, `read_dir` and `File::open` on `/proc`, `getpid` and `Command::spawn` are inputs, as described above.
- Panics are not modelled as crashes. The `.unwrap()` on a failed respawn or initial spawn makes the step return `Err` and stop at that point. The panics of `waitpid(...).unwrap()` (for example with no children left) and of `read_dir("/proc").expect(...)` are not modelled.
- Log output and the `Display` implementations are formatting only.
- File names that are not valid UTF-8 are skipped by `to_str`; the model's `Listed` names are already strings.
- How `Command::spawn` splits the argument string is not modelled, since the launch itself is an input.
- Command.PersistentCommand.Spawn: the counter is a `nat`, so the wrap-around of `usize` on overflow is not modelled.
- Lib.Reaper.Start: on failure the contract only names the error, because the registry left behind a panic is never used.
- The `Event` enum of `src/command.rs` is its own `Command.Event`. `PersistentCommand` is not used by `src/lib.rs`, so the two are not connected.

## Findings

| source | as written | input that shows it | evidently intended | confidence | as-written member | corrected member |
|---|---|---|---|---|---|---|
| src/reaper.rs:229-238 | after an error exit or a kill, `mark_children(pid)` lists the children whose parent is the dead pid | a command crashes and leaves a child; Linux has already reparented that child to the init process when SIGCHLD is reaped, so no `/proc` entry names the dead pid and nothing is marked | the crashed command's children are terminated; `src/lib.rs` does this by marking the init process's new children | medium, not executed | LegacyReaper.ReparentedChildrenEscape | Lib.ReparentedChildrenAreSignalled |
