# qgui core, modelled in Dafny

qgui is a chat-style front end for a terminal. An Angular client talks to a
NestJS backend over a WebSocket. This project models the parts of both sides
that decide something, and proves what they promise.

Backend:
- `BufferLimit` (buffer-limit.service.ts): the per-session output buffers. Each
  keeps the newest characters up to a shared capacity. The registry can be
  resized, reports memory statistics and raises a warning at 80% use.
- `PtyCleanup` (pty-cleanup.service.ts): the registry of child processes that
  must be killed. It kills one or all, and runs per-process timeouts on an
  abstract clock.
- `CommandFilter` (command-filter.service.ts): the denylist of dangerous shell
  commands, `isSafe` and `sanitize`.
- `PtyManager` (pty-manager.service.ts): the session manager that numbers
  sessions `process-1`, `process-2`, ...
- `WebSocketGateway` (websocket.gateway.ts): connection bookkeeping and the
  frame each message is answered with.
- `Cors` (main.ts): the CORS origin check.

Frontend:
- `Sanitization` (sanitization.service.ts): `escapeHtml`, `sanitizeInput`,
  `sanitizeOutput` (which keeps ANSI colour sequences) and `isValidCommand`.
- `CommandPalette`: the Cmd/Ctrl+K command palette and its keyboard handling.
- `Sidebar`: the chat-session list, with create, select, delete, search and
  day buckets.
- `CommandInput`: the command field that sends trimmed text on Enter.
- `AnsiPipe`: the pipe that turns red and reset sequences into spans.

Shared modules:
- `Wrappers`: Option and Outcome.
- `JsText`: JavaScript's `trim`, ASCII `toLowerCase`, `includes`, and printing
  a number in decimal.
- `Regex`: a backtracking matcher for the regular-expression shapes the
  sources use, with JavaScript's `test` and global `replace`.
- `Lists`: `filter` and its laws.

Objects whose fields the source updates are classes with `modifies` clauses.
Their methods are proved against specification functions, such as `Tail`,
`Matching`, `Selected`, `KeyStep`, `Route` and `SafeInput`. The properties
are proved about those functions. Pure code is written as functions and
lemmas.

## Model

| member | source | states |
|---|---|---|
| BufferLimit.Tail | apps/backend/src/services/buffer-limit.service.ts:14-22 | the kept text is `min(\|s\|, n)` characters long (none for a capacity that is not positive) |
| BufferLimit.TailSuffix | apps/backend/src/services/buffer-limit.service.ts:14-22 | the kept text is the end of the text appended, so the oldest characters are the ones dropped |
| BufferLimit.TailFits | apps/backend/src/services/buffer-limit.service.ts:15-21 | text that fits in the capacity is kept whole: append is plain concatenation |
| BufferLimit.TailOfTail | apps/backend/src/services/buffer-limit.service.ts:14-22 | cutting after every append equals cutting everything appended once: no dropped character is ever needed again |
| BufferLimit.TailShrink | apps/backend/src/services/buffer-limit.service.ts:59-67 | cutting to a larger capacity then to a smaller one equals cutting to the smaller |
| BufferLimit.CircularBuffer.constructor | apps/backend/src/services/buffer-limit.service.ts:6-12 | a new buffer is empty with the given capacity |
| BufferLimit.CircularBuffer.Append | apps/backend/src/services/buffer-limit.service.ts:14-22 | the content becomes the newest `maxSize` characters of old content plus `data`, and stays the tail of everything written since the last clear |
| BufferLimit.CircularBuffer.GetContent | apps/backend/src/services/buffer-limit.service.ts:24-26 | the content is the newest `maxSize` characters written |
| BufferLimit.CircularBuffer.GetSize | apps/backend/src/services/buffer-limit.service.ts:28-30 | the size is the content's length, never above the capacity nor above what was written |
| BufferLimit.CircularBuffer.Clear | apps/backend/src/services/buffer-limit.service.ts:32-34 | the content becomes empty |
| BufferLimit.CircularBufferExample | apps/backend/src/services/buffer-limit.service.spec.ts:146-159 | capacity 10 fed `12345`, `67890`, `ABCDE` holds `67890ABCDE`, size 10 |
| BufferLimit.Resized | apps/backend/src/services/buffer-limit.service.ts:63-67 | rebuilding keeps exactly the same session ids |
| BufferLimit.TotalLengthRemove | apps/backend/src/services/buffer-limit.service.ts:135-138 | the total size does not depend on the order the buffers are summed in |
| BufferLimit.TotalLengthUpdate | apps/backend/src/services/buffer-limit.service.ts:135-138 | replacing one buffer's text changes the total by the difference of lengths |
| BufferLimit.TotalLengthBound | apps/backend/src/services/buffer-limit.service.ts:135-140 | buffers within the capacity total at most capacity times count |
| BufferLimit.MeanSpec | apps/backend/src/services/buffer-limit.service.ts:141 | the average is 0 without buffers, otherwise average times count is the total, and it never exceeds the capacity |
| BufferLimit.WarnsIff | apps/backend/src/services/buffer-limit.service.ts:154-158 | with a positive capacity the warning holds iff some buffer exists and `5*total >= 4*cap*count` |
| BufferLimit.WarningThresholdExample | apps/backend/src/services/buffer-limit.service.spec.ts:132-143 | 801 and 800 characters in one buffer of capacity 1000 warn, 799 do not |
| BufferLimit.NoBuffersNoWarning | apps/backend/src/services/buffer-limit.service.ts:154-158 | an empty registry never warns |
| BufferLimit.BufferLimitService.ContentsBounded | apps/backend/src/services/buffer-limit.service.ts:40-41 | no session's buffer holds more than the capacity |
| BufferLimit.BufferLimitService.constructor | apps/backend/src/services/buffer-limit.service.ts:40-41 | a new registry has capacity 10 MiB and no buffers |
| BufferLimit.BufferLimitService.GetMaxBufferSize | apps/backend/src/services/buffer-limit.service.ts:47-49 | returns the capacity, which is positive |
| BufferLimit.BufferLimitService.Rebuild | apps/backend/src/services/buffer-limit.service.ts:63-67 | one step of the rebuild: only this session's buffer is replaced, by a fresh one holding the tail of its old content |
| BufferLimit.BufferLimitService.SetMaxBufferSize | apps/backend/src/services/buffer-limit.service.ts:54-68 | a size that is not positive fails with the source's message and changes nothing; otherwise the capacity is set, the ids stay and every buffer is a fresh one holding the tail of its old content |
| BufferLimit.BufferLimitService.RebuildAll | apps/backend/src/services/buffer-limit.service.ts:63-67 | the loop replaces every buffer, no two sessions sharing one, each holding the tail of its old content at the new capacity |
| BufferLimit.BufferLimitService.CreateBuffer | apps/backend/src/services/buffer-limit.service.ts:73-78 | a fresh empty buffer at the current capacity is stored under the id, replacing any earlier one |
| BufferLimit.BufferLimitService.GetBuffer | apps/backend/src/services/buffer-limit.service.ts:83-85 | present exactly for stored ids, and then the stored buffer |
| BufferLimit.BufferLimitService.AppendExisting | apps/backend/src/services/buffer-limit.service.ts:98 | appending to one stored buffer changes only that session's content |
| BufferLimit.BufferLimitService.EnsureBuffer | apps/backend/src/services/buffer-limit.service.ts:91-96 | a missing buffer is created empty; an existing one is kept as it is |
| BufferLimit.BufferLimitService.AppendData | apps/backend/src/services/buffer-limit.service.ts:90-98 | after the append the id exists, holding the tail of its old content (empty if new) plus `data`; no other session changes |
| BufferLimit.BufferLimitService.AppendToBuffer | apps/backend/src/services/buffer-limit.service.ts:90-104 | as AppendData, and the warning is reported exactly when the 80% rule holds afterwards |
| BufferLimit.BufferLimitService.ClearBuffer | apps/backend/src/services/buffer-limit.service.ts:109-115 | a stored session's content becomes empty; an unknown id changes nothing |
| BufferLimit.BufferLimitService.DeleteBuffer | apps/backend/src/services/buffer-limit.service.ts:120-124 | the id is forgotten, others untouched; an unknown id changes nothing |
| BufferLimit.BufferLimitService.CleanupAll | apps/backend/src/services/buffer-limit.service.ts:192-195 | no buffers are left |
| BufferLimit.BufferLimitService.GetMemoryStats | apps/backend/src/services/buffer-limit.service.ts:129-149 | count of buffers, sum of their sizes (at most capacity times count), mean as in MeanSpec, and the capacity |
| BufferLimit.BufferLimitService.IsMemoryWarning | apps/backend/src/services/buffer-limit.service.ts:154-158 | true exactly when usage over capacity-times-count (over 1 when that is 0) reaches 0.8 |
| PtyCleanup.Delay | apps/backend/src/services/pty-cleanup.service.ts:99-102 | the delay Node actually waits: the timeout itself when it lies in 1 .. 2^31-1, otherwise 1 ms |
| PtyCleanup.Drop | apps/backend/src/services/pty-cleanup.service.ts:33 | removing pids keeps exactly the others, in order, without repetitions |
| PtyCleanup.DropTwice | apps/backend/src/services/pty-cleanup.service.ts:33 | removing in two steps is removing the union |
| PtyCleanup.Handles | apps/backend/src/services/pty-cleanup.service.ts:77-79 | one handle per listed pid, in the list's order |
| PtyCleanup.KillCall | apps/backend/src/services/pty-cleanup.service.ts:30-32 | `kill` is called exactly for a registered pid whose handle has a `kill` function |
| PtyCleanup.KillCalls | apps/backend/src/services/pty-cleanup.service.ts:55-64 | the pids whose `kill` is called by the loop are exactly the listed ones with a `kill` function, each once |
| PtyCleanup.Due | apps/backend/src/services/pty-cleanup.service.ts:99-102 | the timers that fall due are the waiting ones whose deadline is reached |
| PtyCleanup.Reaped | apps/backend/src/services/pty-cleanup.service.ts:29-41 | a fired timer removes its process exactly when the process is registered and its `kill` does not throw |
| PtyCleanup.AfterFiring | apps/backend/src/services/pty-cleanup.service.ts:36-40 | after firing, exactly the reaped pids lose their timer |
| PtyCleanup.PtyCleanupService.constructor | apps/backend/src/services/pty-cleanup.service.ts:12-13 | both maps start empty |
| PtyCleanup.PtyCleanupService.RegisterProcess | apps/backend/src/services/pty-cleanup.service.ts:18-21 | stores the handle under the pid, replacing an earlier one; a new pid goes last in iteration order, a known pid keeps its place |
| PtyCleanup.PtyCleanupService.GetAllProcesses | apps/backend/src/services/pty-cleanup.service.ts:77-79 | the handles in first-registration order |
| PtyCleanup.PtyCleanupService.AllProcessesListed | apps/backend/src/services/pty-cleanup.service.ts:77-79 | every registered handle is listed, and the list has one entry per pid |
| PtyCleanup.PtyCleanupService.KillProcess | apps/backend/src/services/pty-cleanup.service.ts:26-47 | registered pid: `kill` called if present; unless it throws the pid and its timer are removed; when it throws, nothing is removed; an unknown pid changes nothing |
| PtyCleanup.PtyCleanupService.CleanupAll | apps/backend/src/services/pty-cleanup.service.ts:52-72 | every `kill` is called in iteration order past failures; then both maps are empty |
| PtyCleanup.PtyCleanupService.SetProcessTimeout | apps/backend/src/services/pty-cleanup.service.ts:91-105 | the pid has exactly one waiting timer, due after Delay(timeout); any earlier one is replaced; nothing else changes |
| PtyCleanup.PtyCleanupService.Fire | apps/backend/src/services/pty-cleanup.service.ts:99-102 | a firing timer is spent and `killProcess(pid)` follows, with its effect |
| PtyCleanup.PtyCleanupService.AdvanceTime | apps/backend/src/services/pty-cleanup.service.ts:99-102 | every waiting timer due by the new time fires once; afterwards no timer is due |
| PtyCleanup.PtyCleanupService.FireNext | apps/backend/src/services/pty-cleanup.service.ts:99-102 | one more due timer has fired, keeping the accumulated effect |
| PtyCleanup.PtyCleanupService.OnApplicationShutdown | apps/backend/src/services/pty-cleanup.service.ts:110-113 | has the effect of `cleanupAll` |
| PtyCleanup.FiredStep | apps/backend/src/services/pty-cleanup.service.ts:99-102 | firing one more timer extends the accumulated effect by that pid |
| PtyCleanup.Enumerate | apps/backend/src/services/pty-cleanup.service.ts:99-102 | the due pids, each once |
| PtyCleanup.ListingScenario | apps/backend/src/services/pty-cleanup.service.spec.ts:85-94 | three registered processes are listed in registration order |
| PtyCleanup.KillScenario | apps/backend/src/services/pty-cleanup.service.spec.ts:42-53 | killing calls `kill` and unlists the process; an unknown pid changes nothing |
| PtyCleanup.CleanupScenario | apps/backend/src/services/pty-cleanup.service.spec.ts:57-69 | clean-up calls all three `kill`s in order and lists nothing |
| PtyCleanup.ThrowingKillScenario | apps/backend/src/services/pty-cleanup.service.ts:29-45 | a throwing `kill` leaves the process and its timer registered, and is tried again next time |
| PtyCleanup.TimeoutScenario | apps/backend/src/services/pty-cleanup.service.spec.ts:104-121 | a 30-minute timer kills its process when 31 minutes pass, and its timer is gone |
| CommandFilter.LitFrom | apps/backend/src/services/command-filter.service.ts:5-38 | the literal part of each expression matches its text character by character |
| CommandFilter.Sanitize | apps/backend/src/services/command-filter.service.ts:62-67 | the result is the command or the placeholder, and always safe |
| CommandFilter.RuleNeedsWord | apps/backend/src/services/command-filter.service.ts:5-38 | a match of an entry contains its command word |
| CommandFilter.WordRuleMatch | apps/backend/src/services/command-filter.service.ts:5-38 | an entry without a leading `\s+` matches where its word occurs and the rest matches right after |
| CommandFilter.PlainWordRule | apps/backend/src/services/command-filter.service.ts:11-30 | a bare-word entry tests true exactly when the word occurs |
| CommandFilter.NoneMatchFromIff | apps/backend/src/services/command-filter.service.ts:49-56 | the early-exit loop is "no entry from k on matches" |
| CommandFilter.RuleTestIff | apps/backend/src/services/command-filter.service.ts:20 | an entry tests true exactly when it matches at an allowed position, only position 0 for `^sudo\s+` |
| CommandFilter.NoEntryMatchesEmpty | apps/backend/src/services/command-filter.service.ts:44-47 | no entry matches the empty command |
| CommandFilter.IsSafeIff | apps/backend/src/services/command-filter.service.ts:42-57 | a command is safe exactly when no entry tests true on it |
| CommandFilter.UnsafeIff | apps/backend/src/services/command-filter.service.ts:42-57 | unsafe exactly when some entry matches at some position it may |
| CommandFilter.HarmlessIsSafe | apps/backend/src/services/command-filter.service.ts:5-38 | a command without any of the command words is safe |
| CommandFilter.BlockedIsSafe | apps/backend/src/services/command-filter.service.ts:64 | the placeholder passes the filter |
| CommandFilter.AbsentLetter | apps/backend/src/services/command-filter.service.ts:5-38 | a text that uses none of a set of letters does not contain a word spelled with one of them |
| CommandFilter.HarmlessSpoiled | apps/backend/src/services/command-filter.service.ts:5-38 | a text that avoids a set of letters, where every command word either uses one of them or is otherwise known to be absent, contains no command word |
| CommandFilter.ListSafe | apps/backend/src/services/command-filter.service.spec.ts:41 | `ls` passes the filter |
| CommandFilter.WorkingDirectoryScanned | apps/backend/src/services/command-filter.service.spec.ts:42 | `dd` does not occur in `pwd` |
| CommandFilter.WorkingDirectorySafe | apps/backend/src/services/command-filter.service.spec.ts:42 | `pwd` passes the filter |
| CommandFilter.ChangeDirectoryScanned | apps/backend/src/services/command-filter.service.spec.ts:43 | `rm`, `sudo`, `dd` and `chmod` do not occur in `cd /home/user`, although all their letters do |
| CommandFilter.ChangeDirectorySafe | apps/backend/src/services/command-filter.service.spec.ts:43 | `cd /home/user` passes the filter |
| CommandFilter.GitStatusSafe | apps/backend/src/services/command-filter.service.spec.ts:44 | `git status` passes the filter |
| CommandFilter.NpmInstallScanned | apps/backend/src/services/command-filter.service.spec.ts:45 | `init` does not occur in `npm install` |
| CommandFilter.NpmInstallSafe | apps/backend/src/services/command-filter.service.spec.ts:45 | `npm install` passes the filter |
| CommandFilter.EchoScanned | apps/backend/src/services/command-filter.service.spec.ts:46 | `dd` does not occur in `echo "Hello World"` |
| CommandFilter.EchoSafe | apps/backend/src/services/command-filter.service.spec.ts:46 | `echo "Hello World"` passes the filter |
| CommandFilter.CatSafe | apps/backend/src/services/command-filter.service.spec.ts:47 | `cat file.txt` passes the filter |
| CommandFilter.GrepScanned | apps/backend/src/services/command-filter.service.spec.ts:48 | `init` does not occur in `grep pattern file.txt` |
| CommandFilter.GrepSafe | apps/backend/src/services/command-filter.service.spec.ts:48 | `grep pattern file.txt` passes the filter |
| CommandFilter.MakeDirectoryScanned | apps/backend/src/services/command-filter.service.spec.ts:49 | `rm` and `dd` do not occur in `mkdir new-folder` |
| CommandFilter.MakeDirectorySafe | apps/backend/src/services/command-filter.service.spec.ts:49 | `mkdir new-folder` passes the filter |
| CommandFilter.CopySafe | apps/backend/src/services/command-filter.service.spec.ts:50 | `cp file1 file2` passes the filter |
| CommandFilter.SafeCommands | apps/backend/src/services/command-filter.service.spec.ts:39-56 | every command of the test's safe list passes the filter |
| CommandFilter.ListingSafe | apps/backend/src/services/command-filter.service.spec.ts:101 | `ls -la` passes the filter |
| CommandFilter.PlainWordsUnsafe | apps/backend/src/services/command-filter.service.spec.ts:71-83 | any command naming mkfs, fdisk, parted, umount, shutdown or reboot is unsafe |
| CommandFilter.EntryMakesUnsafe | apps/backend/src/services/command-filter.service.ts:49-56 | one matching entry makes a command unsafe |
| CommandFilter.RemoveRootUnsafe | apps/backend/src/services/command-filter.service.spec.ts:20-37 | `rm -rf /` is unsafe |
| CommandFilter.RemoveHomeUnsafe | apps/backend/src/services/command-filter.service.spec.ts:20-37 | `rm -rf ~` is unsafe |
| CommandFilter.SudoUnsafe | apps/backend/src/services/command-filter.service.ts:21 | every command that starts with `sudo` followed by white space is unsafe, whatever follows |
| CommandFilter.SudoCommandsUnsafe | apps/backend/src/services/command-filter.service.spec.ts:58-69 | `sudo ls`, `sudo apt-get update`, `sudo systemctl restart` and `sudo -i` are unsafe |
| CommandFilter.ChmodUnsafe | apps/backend/src/services/command-filter.service.spec.ts:71-83 | `chmod 777 file` is unsafe |
| CommandFilter.MkfsUnsafe | apps/backend/src/services/command-filter.service.spec.ts:71-83 | `mkfs.ext4 /dev/sda1` is unsafe |
| CommandFilter.RemoveCurrentUnsafe | apps/backend/src/services/command-filter.service.spec.ts:30 | `rm -rf .` is unsafe |
| CommandFilter.RemoveEverythingUnsafe | apps/backend/src/services/command-filter.service.spec.ts:31 | `rm -rf *` is unsafe |
| CommandFilter.ChmodRecursiveRest | apps/backend/src/services/command-filter.service.ts:16 | `\s+-R\s+777` matches after the `chmod` of `chmod -R 777 /` |
| CommandFilter.ChmodRecursiveMatches | apps/backend/src/services/command-filter.service.ts:16 | `chmod -R 777 /` matches `chmod\s+-R\s+777` at its start |
| CommandFilter.ChmodRecursiveUnsafe | apps/backend/src/services/command-filter.service.spec.ts:26 | `chmod -R 777 /` is unsafe |
| CommandFilter.ChownRest | apps/backend/src/services/command-filter.service.ts:18 | `\s+-R\s+root` matches after the `chown` of `chown -R root /` |
| CommandFilter.ChownMatches | apps/backend/src/services/command-filter.service.ts:18 | `chown -R root /` matches `chown\s+-R\s+root` at its start |
| CommandFilter.ChownUnsafe | apps/backend/src/services/command-filter.service.spec.ts:27 | `chown -R root /` is unsafe |
| CommandFilter.MountRest | apps/backend/src/services/command-filter.service.ts:30 | `\s+\/dev` matches after the `mount` of `mount /dev/sda1 /mnt` |
| CommandFilter.MountMatches | apps/backend/src/services/command-filter.service.ts:30 | `mount /dev/sda1 /mnt` matches `mount\s+\/dev` at its start |
| CommandFilter.MountUnsafe | apps/backend/src/services/command-filter.service.spec.ts:76 | `mount /dev/sda1 /mnt` is unsafe |
| CommandFilter.DiskDumpTail | apps/backend/src/services/command-filter.service.ts:13 | `of=/dev` matches at index 16 of `dd if=/dev/zero of=/dev/sda` |
| CommandFilter.DiskDumpRun | apps/backend/src/services/command-filter.service.ts:13 | the arguments before `of=` hold no line terminator, so `.` takes each of them |
| CommandFilter.DiskDumpRest | apps/backend/src/services/command-filter.service.ts:13 | `\s+.*of=\/dev` matches after the `dd`, the greedy `.*` giving back to `of=` |
| CommandFilter.DiskDumpMatches | apps/backend/src/services/command-filter.service.ts:13 | `dd if=/dev/zero of=/dev/sda` matches `dd\s+.*of=\/dev` at its start |
| CommandFilter.DiskDumpUnsafe | apps/backend/src/services/command-filter.service.spec.ts:25 | `dd if=/dev/zero of=/dev/sda` is unsafe |
| CommandFilter.ForkBombTail | apps/backend/src/services/command-filter.service.ts:25 | from the `&` of the fork bomb on, `.*\};:` matches |
| CommandFilter.ForkBombMiddle | apps/backend/src/services/command-filter.service.ts:25 | from the `|` of the fork bomb on, `\|.*&.*\};:` matches |
| CommandFilter.ForkBombRest | apps/backend/src/services/command-filter.service.ts:25 | after `:(){`, `.*\|.*&.*\};:` matches |
| CommandFilter.ForkBombMatches | apps/backend/src/services/command-filter.service.ts:25 | the fork bomb matches its entry at its start |
| CommandFilter.ForkBombUnsafe | apps/backend/src/services/command-filter.service.spec.ts:28 | the fork bomb is unsafe |
| CommandFilter.DiskToolsUnsafe | apps/backend/src/services/command-filter.service.spec.ts:71-83 | `mkfs`, `fdisk /dev/sda`, `parted /dev/sda` and `umount /mnt` are unsafe |
| CommandFilter.DangerousCommandsUnsafe | apps/backend/src/services/command-filter.service.spec.ts:20-37 | every command of the test's dangerous list is unsafe |
| CommandFilter.SystemCommandsUnsafe | apps/backend/src/services/command-filter.service.spec.ts:71-83 | every command of the test's system list is unsafe |
| CommandFilter.SanitizeKeepsIff | apps/backend/src/services/command-filter.service.ts:62-67 | sanitize returns its input unchanged exactly when it is safe |
| CommandFilter.SanitizeIdempotent | apps/backend/src/services/command-filter.service.ts:62-67 | sanitizing twice equals sanitizing once |
| CommandFilter.SanitizeBlocksDangerous | apps/backend/src/services/command-filter.service.spec.ts:92-98 | `rm -rf /` and `sudo rm -rf` become the placeholder |
| CommandFilter.SanitizeKeepsSafe | apps/backend/src/services/command-filter.service.spec.ts:100-103 | `ls -la` and `git status` come back unchanged |
| PtyManager.ProcessIdInjective | apps/backend/src/app/pty-manager.service.ts:20 | different counter values give different ids |
| PtyManager.IdsUpToDistinct | apps/backend/src/app/pty-manager.service.ts:13 | the ids handed out are pairwise distinct |
| PtyManager.NextIdIsNew | apps/backend/src/app/pty-manager.service.ts:20 | the next id was never handed out before |
| PtyManager.PTYManagerService.constructor | apps/backend/src/app/pty-manager.service.ts:12-13 | no sessions, counter 0 |
| PtyManager.PTYManagerService.CreateProcess | apps/backend/src/app/pty-manager.service.ts:15-59 | counter goes up by one; returns a new running session `process-N`, created now, not terminated, stored under an id that was not in the map; earlier sessions untouched |
| PtyManager.PTYManagerService.GetProcess | apps/backend/src/app/pty-manager.service.ts:61-63 | the stored session for a known id, nothing otherwise |
| PtyManager.PTYManagerService.GetAllProcesses | apps/backend/src/app/pty-manager.service.ts:65-67 | one session per `createProcess` call, in creation order, the i-th named `process-(i+1)` |
| PtyManager.PTYManagerService.TerminateProcess | apps/backend/src/app/pty-manager.service.ts:70-72 | the stub changes nothing: the session is still there and running |
| PtyManager.PTYManagerService.TerminateAllProcesses | apps/backend/src/app/pty-manager.service.ts:75-77 | the stub changes nothing: every session is still there and running |
| PtyManager.PTYManagerService.GetProcessInfo | apps/backend/src/app/pty-manager.service.ts:84-96 | nothing for an unknown id; otherwise its id, `running`, its creation time and no termination time |
| PtyManager.TwoSessions | apps/backend/src/app/pty-manager.service.spec.ts:36-79 | two sessions are `process-1` and `process-2`, both listed and found; an unknown id is not |
| WebSocketGateway.Route | apps/backend/src/app/websocket.gateway.ts:107-178 | a fixed response carries `Message received`; an output frame never carries output reporting a failure |
| WebSocketGateway.RouteKinds | apps/backend/src/app/websocket.gateway.ts:107-178 | fixed response iff type is not `message`; output frame iff a command returned output with no failure marker; error frame in every other case |
| WebSocketGateway.OutputPassedOn | apps/backend/src/app/websocket.gateway.ts:126-143 | a command's output is passed on verbatim in either frame |
| WebSocketGateway.NotFoundIsError | apps/backend/src/app/websocket.gateway.ts:120-133 | output containing `command not found` gives an error frame with that output |
| WebSocketGateway.PlainOutputPassed | apps/backend/src/app/websocket.gateway.ts:134-143 | output that cannot contain a marker gives an output frame |
| WebSocketGateway.ThrownIsError | apps/backend/src/app/websocket.gateway.ts:145-157 | a thrown Error sends its message, anything else the generic error |
| WebSocketGateway.Gateway.constructor | apps/backend/src/app/websocket.gateway.ts:39-40 | no clients, empty history |
| WebSocketGateway.Gateway.HandleConnection | apps/backend/src/app/websocket.gateway.ts:44-84 | the id joins the history, is stored as connected with 0 attempts, and is told `reconnected` exactly when it was in the history before |
| WebSocketGateway.Gateway.HandleDisconnect | apps/backend/src/app/websocket.gateway.ts:86-94 | the id leaves the connected map and stays in the history |
| WebSocketGateway.Gateway.HandleMessage | apps/backend/src/app/websocket.gateway.ts:96-179 | exactly one frame, the routed one, is sent; the maps do not change |
| WebSocketGateway.Gateway.GetConnectedClientsCount | apps/backend/src/app/websocket.gateway.ts:187-189 | the number of distinct connected ids |
| WebSocketGateway.Gateway.GetClientConnectionState | apps/backend/src/app/websocket.gateway.ts:191-196 | nothing exactly for ids not connected; otherwise `connected` with 0 attempts |
| WebSocketGateway.ReconnectScenario | apps/backend/src/app/websocket.gateway.spec.ts:81-111 | connecting twice counts once and says `reconnected`; after leaving the client is not counted and has no state; coming back says `reconnected` |
| WebSocketGateway.TwoClientsScenario | apps/backend/src/app/websocket.gateway.spec.ts:119-133 | two clients are counted separately and both are told `connected` |
| Sanitization.Entity | apps/frontend/src/app/services/sanitization.service.ts:7-13 | each special character becomes an entity starting with `&`; every other character is kept |
| Sanitization.EscapeHtml | apps/frontend/src/app/services/sanitization.service.ts:121-123 | the result is no shorter and has no `<`, `>`, `"` or `'` |
| Sanitization.EscapeConcat | apps/frontend/src/app/services/sanitization.service.ts:121-123 | escaping works character by character: it distributes over concatenation |
| Sanitization.EscapePlain | apps/frontend/src/app/services/sanitization.service.ts:121-123 | text without special characters is unchanged |
| Sanitization.UnescapeEscape | apps/frontend/src/app/services/sanitization.service.ts:7-13 | reading the entities back gives the original text, so escaping loses nothing |
| Sanitization.EscapeExample | apps/frontend/src/app/services/sanitization.service.spec.ts:52-55 | `<>&"'` becomes `&lt;&gt;&amp;&quot;&#x27;` |
| Sanitization.StripFrom | apps/frontend/src/app/services/sanitization.service.ts:56-58 | removing the dangerous patterns introduces no character |
| Sanitization.SafeInput | apps/frontend/src/app/services/sanitization.service.ts:39-62 | missing or empty input gives ""; input with no tag, handler or `javascript:` is returned as is; cleaned input has no `<`, `>`, `"` or `'`; one pass of the four removals, so a pattern can be left (see Findings) |
| Sanitization.SanitizeInput | apps/frontend/src/app/services/sanitization.service.ts:39-62 | the method's result is SafeInput; where one pass leaves no pattern it is the intended CleanInput; for each attack input of the two tests the result holds none of `<script>`, `<iframe`, `javascript:` and the six handler attributes |
| Sanitization.RemoveDangerous | apps/frontend/src/app/services/sanitization.service.ts:56-58 | the loop removes each pattern's matches in turn |
| Sanitization.MandatoryAtom | apps/frontend/src/app/services/sanitization.service.ts:15-24 | a match needs a character of each mandatory atom's class |
| Sanitization.NoMatchWithout | apps/frontend/src/app/services/sanitization.service.ts:47-58 | text lacking a mandatory character class has no match and nothing is removed from it |
| Sanitization.UntouchedInput | apps/frontend/src/app/services/sanitization.service.ts:47-61 | input without `>`, `j`, and one of `o`/`n` is returned unchanged, lone `<` and `&` included |
| Sanitization.NormalInputsUntouched | apps/frontend/src/app/services/sanitization.service.spec.ts:39-49 | the test's commands `ls -la`, `git status` and `npm install` come back unchanged |
| Sanitization.QuotedInputUntouched | apps/frontend/src/app/services/sanitization.service.spec.ts:39-49 | the test's `echo "Hello World"` comes back unchanged, its quotes not escaped |
| Sanitization.PathInputUntouched | apps/frontend/src/app/services/sanitization.service.spec.ts:39-49 | the test's `cd /home/user` comes back unchanged |
| Sanitization.SymbolsInputUntouched | apps/frontend/src/app/services/sanitization.service.ts:47-51 | a lone `<` without a closing `>`, and `&&`, do not count as markup: `a < b && c` comes back unchanged |
| Sanitization.EntityCharsKept | apps/frontend/src/app/services/sanitization.service.ts:56-58 | no dangerous pattern changes text made of entity characters |
| Sanitization.EntitiesExample | apps/frontend/src/app/services/sanitization.service.spec.ts:52-55 | the five special characters are escaped and nothing else is removed |
| Sanitization.IsValidCommand | apps/frontend/src/app/services/sanitization.service.ts:98-116 | a valid command is present and not blank |
| Sanitization.TestDollarParen | apps/frontend/src/app/services/sanitization.service.ts:30 | `/\$\(/` tests true exactly when the text contains `$(` |
| Sanitization.IsValidCommandIff | apps/frontend/src/app/services/sanitization.service.ts:98-116 | valid exactly when not blank, none of `; & \\| \` > <`, no `$(` and no `rm -rf` |
| Sanitization.ValidWithoutSymbols | apps/frontend/src/app/services/sanitization.service.ts:98-116 | a non-blank command without `$`, `r` or an injection character is valid |
| Sanitization.PlainCommandsValid | apps/frontend/src/app/services/sanitization.service.spec.ts:101-113 | the test's plain commands are valid |
| Sanitization.RefusedAt | apps/frontend/src/app/services/sanitization.service.ts:104-108 | one injection character anywhere makes a command invalid |
| Sanitization.InjectionsRefused | apps/frontend/src/app/services/sanitization.service.spec.ts:115-127 | the test's chained, piped and substituted commands are refused |
| Sanitization.BlankCommandsRefused | apps/frontend/src/app/services/sanitization.service.spec.ts:129-132 | missing, empty and blank commands are refused |
| Sanitization.Placeholder | apps/frontend/src/app/services/sanitization.service.ts:81 | each placeholder starts with `__ANSI_` and a digit and has no special character |
| Sanitization.ReplaceFirst | apps/frontend/src/app/services/sanitization.service.ts:89 | replacing the first occurrence only introduces characters of the replacement |
| Sanitization.TokensFacts | apps/frontend/src/app/services/sanitization.service.ts:74-82 | the pieces the sequence search cuts the output into give back the output, and no sequence contains a special character |
| Sanitization.IntendedIsEscape | apps/frontend/src/app/services/sanitization.service.ts:67-92 | keeping sequences verbatim and escaping the rest is escaping everything, since sequences have no special character |
| Sanitization.ReplaceAfterClean | apps/frontend/src/app/services/sanitization.service.ts:88-90 | after text without `__ANSI_`, the first occurrence of a placeholder is the one that follows |
| Sanitization.RestoreStep | apps/frontend/src/app/services/sanitization.service.ts:88-90 | for output without `__ANSI_`, restoring code m puts it back exactly in its own place |
| Sanitization.RestoreAll | apps/frontend/src/app/services/sanitization.service.ts:88-90 | restoring all codes gives the escaped text with every sequence back |
| Sanitization.AsWrittenIsIntended | apps/frontend/src/app/services/sanitization.service.ts:67-92 | for output without `__ANSI_` the code as written returns the output with sequences in place and all else escaped |
| Sanitization.SafeOutput | apps/frontend/src/app/services/sanitization.service.ts:64-93 | the intended result: "" for missing output, otherwise the escaped output with each sequence kept |
| Sanitization.SafeOutputRoundTrip | apps/frontend/src/app/services/sanitization.service.ts:67-92 | the intended result reads back as the output |
| Sanitization.SequenceKept | apps/frontend/src/app/services/sanitization.service.ts:74-92 | an ANSI sequence between two texts passes through verbatim, the texts escaped |
| Sanitization.ColouredTextKept | apps/frontend/src/app/services/sanitization.service.ts:67-92 | coloured text without special characters or `_` comes back unchanged from the code as written |
| Sanitization.RedTextKept | apps/frontend/src/app/services/sanitization.service.spec.ts:81-84 | the test's red text comes back unchanged |
| Sanitization.TagsEscaped | apps/frontend/src/app/services/sanitization.service.ts:84-85 | around tags, plain text is kept and angle brackets become entities |
| Sanitization.CommandOutputEscaped | apps/frontend/src/app/services/sanitization.service.spec.ts:86-90 | the test's `<div>` output is escaped exactly |
| Sanitization.RestoreSafe | apps/frontend/src/app/services/sanitization.service.ts:88-90 | restoring sequences introduces no angle bracket or quote |
| Sanitization.AsWrittenSafe | apps/frontend/src/app/services/sanitization.service.spec.ts:92-96 | whatever the output, the code as written returns no angle bracket or quote, hence no `<script>` |
| Sanitization.ExtractCodes | apps/frontend/src/app/services/sanitization.service.ts:74-82 | the extracting loop's text and code list are those of the left-to-right piece split |
| Sanitization.RestoreCodes | apps/frontend/src/app/services/sanitization.service.ts:88-90 | the restoring loop replaces placeholder k by code k, first occurrence only |
| Sanitization.SanitizeOutput | apps/frontend/src/app/services/sanitization.service.ts:67-93 | the result is that of the code as written; it has no angle bracket or quote; for output without `__ANSI_` it is the intended result |
| Sanitization.PlaceholderTextSwapped | apps/frontend/src/app/services/sanitization.service.ts:79-90 | output `__ANSI_0__` + ESC[31m comes back with the two swapped, which differs from the intended result |
| Regex.OnceNeeds | apps/frontend/src/app/services/sanitization.service.ts:15-24 | a match that reached an atom through single atoms put each of them on its own character |
| Regex.FoldMatch | apps/frontend/src/app/services/sanitization.service.ts:19-22 | a case-blind word such as `/javascript:/i` matches wherever its letters occur in either case, and the match ends after them |
| Regex.FoldCharAt | apps/frontend/src/app/services/sanitization.service.ts:19-22 | where a case-blind word matches, each of its letters is found in place, in either case |
| Regex.FoldOnlyAt | apps/frontend/src/app/services/sanitization.service.ts:19-22 | a case-blind word found at one place is the only match when no other place holds its first letter with the right letter further on |
| Regex.RemoveAllShrinks | apps/frontend/src/app/services/sanitization.service.ts:56-58 | a global replace by "" of a pattern that tests true shortens the text |
| Regex.RemoveAllSkip | apps/frontend/src/app/services/sanitization.service.ts:56-58 | positions where nothing matches are copied through by the global replace |
| Regex.RemoveOnly | apps/frontend/src/app/services/sanitization.service.ts:56-58 | a sole match is cut out and the text on its two sides is joined |
| Regex.StarReaches | apps/backend/src/services/command-filter.service.ts:13 | a `*` atom that can take every character up to a point where the rest of the pattern matches lets the pattern match, since greedy matching gives characters back |
| Regex.PlusTakesOne | apps/backend/src/services/command-filter.service.ts:13 | a `+` atom that takes one character and cannot take the next moves on to the following atom after it |
| Sanitization.StripShrinks | apps/frontend/src/app/services/sanitization.service.ts:56-58 | the passes from pattern k on shorten text on which one of those patterns tests true |
| Sanitization.PassShrinks | apps/frontend/src/app/services/sanitization.service.ts:56-58 | a pass of the four removals shortens text on which some dangerous pattern tests true |
| Sanitization.Scrub | apps/frontend/src/app/services/sanitization.service.ts:15-24 | repeating the pass ends in text on which no dangerous pattern tests true, no longer and with no new characters |
| Sanitization.CleanKept | apps/frontend/src/app/services/sanitization.service.ts:56-58 | a pass leaves text on which no pattern tests true unchanged |
| Sanitization.OnePassEnough | apps/frontend/src/app/services/sanitization.service.ts:56-58 | when one pass leaves no pattern, repeating it gives the same text |
| Sanitization.CleanInput | apps/frontend/src/app/services/sanitization.service.ts:39-62 | the intended cleaning: "" for missing or empty input, unmarked input as is, and otherwise escaped text on which no dangerous pattern tests true, with no `<`, `>`, `"` or `'` |
| Sanitization.EmptyClean | apps/frontend/src/app/services/sanitization.service.ts:15-24 | no dangerous pattern matches empty text |
| Sanitization.IntendedWhereClean | apps/frontend/src/app/services/sanitization.service.ts:39-62 | where one pass leaves no pattern, the code as written returns the intended result |
| Sanitization.TagKept | apps/frontend/src/app/services/sanitization.service.ts:17 | text without `<` has no tag and loses nothing to the tag removal |
| Sanitization.HandlerKept | apps/frontend/src/app/services/sanitization.service.ts:19 | text without an `o` or without an `n`, in either case, has no event handler and loses nothing to its removal |
| Sanitization.ScriptKept | apps/frontend/src/app/services/sanitization.service.ts:21 | text without a `j` in either case has no `javascript:` and loses nothing to its removal |
| Sanitization.DataKept | apps/frontend/src/app/services/sanitization.service.ts:23 | text without a `d` or without a `:` has no `data:text/html` and loses nothing to its removal |
| Sanitization.TagTail | apps/frontend/src/app/services/sanitization.service.ts:17 | `[^>]*>` runs up to the first `>` |
| Sanitization.HandlerTail | apps/frontend/src/app/services/sanitization.service.ts:19 | `\w+\s*=` runs over word characters up to an `=` |
| Sanitization.HandlerMatch | apps/frontend/src/app/services/sanitization.service.ts:19 | `on` in either case, word characters and `=` match `/on\w+\s*=/i` |
| Sanitization.HandlerOnlyAt | apps/frontend/src/app/services/sanitization.service.ts:19 | a handler is the only match when no other character is an `n` |
| Sanitization.ScriptOnlyAt | apps/frontend/src/app/services/sanitization.service.ts:21 | `javascript:` is the only match when no other `j` has an `s` four places on |
| Sanitization.ScriptCut | apps/frontend/src/app/services/sanitization.service.ts:56-58 | the global replace of a sole `javascript:` joins the text around it |
| Sanitization.ScriptRejoined | apps/frontend/src/app/services/sanitization.service.ts:56-58 | when the joined text spells `javascript:` again, the code as written returns it: each pattern is replaced once and not searched again |
| Sanitization.PlainSafe | apps/frontend/src/app/services/sanitization.service.ts:47-58 | marked input with nothing to escape is only stripped |
| Sanitization.SchemeReformed | apps/frontend/src/app/services/sanitization.service.ts:56-58 | `javajavascript:script:` comes back as `javascript:`, on which the script pattern still tests true, unlike the intended result |
| Sanitization.EscapeQuiet | apps/frontend/src/app/services/sanitization.service.ts:121-123 | escaping adds no `n`, `j`, `:` or `<`: the entities are spelt without them |
| Sanitization.QuietKept | apps/frontend/src/app/services/sanitization.service.ts:56-58 | no dangerous pattern matches text without `n`, `j`, `:` and `<`, so the pass keeps it |
| Sanitization.NoAttackLeft | apps/frontend/src/app/services/sanitization.service.spec.ts:19-36 | text without `<`, `n` and `j` holds none of the nine words the tests look for |
| Sanitization.QuietResult | apps/frontend/src/app/services/sanitization.service.ts:39-62 | where one pass leaves such text, the result is the intended one and shows no attack |
| Sanitization.TagAt | apps/frontend/src/app/services/sanitization.service.ts:47 | `<`, text without `>`, and `>` make input count as markup |
| Sanitization.TamePassed | apps/frontend/src/app/services/sanitization.service.ts:47-58 | input with a tag and no `n`, `j` or `:` is only escaped, by the code as written and the intended cleaning alike, and shows no attack |
| Sanitization.HandlerInRaw | apps/frontend/src/app/services/sanitization.service.ts:48 | input with a handler attribute counts as markup |
| Sanitization.HandlerCut | apps/frontend/src/app/services/sanitization.service.ts:56-58 | between texts without `n`, `j`, `:` and `<`, the handler removal cuts out the attribute and joins the two sides |
| Sanitization.ScriptInRaw | apps/frontend/src/app/services/sanitization.service.ts:49 | input with `javascript:` counts as markup |
| Sanitization.ScriptCutJoin | apps/frontend/src/app/services/sanitization.service.ts:56-58 | between such texts, the `javascript:` removal cuts out the word and joins the two sides |
| Sanitization.HandlerEscaped | apps/frontend/src/app/services/sanitization.service.ts:121-123 | escaping input around a handler attribute escapes the two sides and keeps the attribute |
| Sanitization.HandlerStripped | apps/frontend/src/app/services/sanitization.service.ts:56-58 | the four passes remove exactly the handler attribute |
| Sanitization.HandlerRemoved | apps/frontend/src/app/services/sanitization.service.ts:39-62 | a handler attribute between texts without `n`, `j` or `:` is removed, as the intended cleaning does, and no attack word is left |
| Sanitization.SchemeEscaped | apps/frontend/src/app/services/sanitization.service.ts:121-123 | escaping input around `javascript:` escapes the two sides and keeps the word |
| Sanitization.SchemeStripped | apps/frontend/src/app/services/sanitization.service.ts:56-58 | the four passes remove exactly the `javascript:` |
| Sanitization.SchemeRemoved | apps/frontend/src/app/services/sanitization.service.ts:39-62 | a `javascript:` between texts without `n`, `j` or `:` is removed, as the intended cleaning does, and no attack word is left |
| Sanitization.ScriptTagCleaned | apps/frontend/src/app/services/sanitization.service.spec.ts:21 | `<script>alert("XSS")</script>` is cleaned as intended and shows no attack word |
| Sanitization.ImageCleaned | apps/frontend/src/app/services/sanitization.service.spec.ts:22 | `<img src="x" onerror="alert(1)">` is cleaned as intended and shows no attack word |
| Sanitization.DivisionCleaned | apps/frontend/src/app/services/sanitization.service.spec.ts:23 | `<div onclick="alert(1)">test</div>` is cleaned as intended and shows no attack word |
| Sanitization.FrameCleaned | apps/frontend/src/app/services/sanitization.service.spec.ts:24 | `<iframe src="evil.com"></iframe>` is cleaned as intended and shows no attack word |
| Sanitization.LinkCleaned | apps/frontend/src/app/services/sanitization.service.spec.ts:25 | `<a href="javascript:alert(1)">click</a>` is cleaned as intended and shows no attack word |
| Sanitization.AttributeCleaned | apps/frontend/src/app/services/sanitization.service.spec.ts:58-63 | `onload=`, `onmouseover=`, `onfocus=` or `onblur=` before `"alert(1)"` is cleaned as intended and shows no attack word |
| Sanitization.TagAttacksCleaned | apps/frontend/src/app/services/sanitization.service.spec.ts:19-36 | every input of the tag test comes back as intended, without `<script>`, `onerror=`, `onclick=`, `<iframe` or `javascript:` |
| Sanitization.HandlerAttacksCleaned | apps/frontend/src/app/services/sanitization.service.spec.ts:57-72 | every input of the handler test comes back as intended, without `onload=`, `onmouseover=`, `onfocus=` or `onblur=` |
| Sanitization.AttacksCleaned | apps/frontend/src/app/services/sanitization.service.spec.ts:19-36 | the inputs of both tests come back without any of the words the tests look for |
| Sanitization.HasHtmlOrScript | apps/frontend/src/app/services/sanitization.service.ts:47-49 | input counts as markup when the tag, handler or `javascript:` pattern tests true; `data:text/html` alone does not count (see TamePassed, HandlerInRaw, ScriptInRaw) |
| Sanitization.OutputAsWritten | apps/frontend/src/app/services/sanitization.service.ts:67-93 | what `sanitizeOutput` returns as written: "" for missing output, otherwise the placeholders swapped in, the text escaped and the codes restored (see AsWrittenSafe, AsWrittenIsIntended) |
| AnsiPipe.Transform | apps/frontend/src/app/pipes/ansi.pipe.ts:11-21 | the red sequence is replaced everywhere first, then the reset sequence |
| CommandFilter.IsSafe | apps/backend/src/services/command-filter.service.ts:42-57 | a missing or empty command is safe; otherwise safe when no denylist entry tests true on it (see UnsafeIff) |
| BufferLimit.Warns | apps/backend/src/services/buffer-limit.service.ts:153-158 | the warning is the used total over capacity times buffer count, or over 1 when that product is 0, compared with 0.8 (see WarnsIff) |
| Sidebar.WithNewChat | apps/frontend/src/app/components/sidebar/sidebar.component.ts:184-199 | the new session first, then every earlier session made inactive (see NewChatFirst) |
| CommandPalette.Opened | apps/frontend/src/app/components/command-palette/command-palette.component.ts:180-184 | `open` makes the palette visible with an empty query and the first command selected |
| CommandPalette.Closed | apps/frontend/src/app/components/command-palette/command-palette.component.ts:186-188 | `close` hides the palette and keeps the query and the index |
| PtyManager.ProcessId | apps/backend/src/app/pty-manager.service.ts:20 | the id is `process-` followed by the counter in decimal (see ProcessIdInjective) |
| PtyCleanup.PtyCleanupService.HasProcess | apps/backend/src/services/pty-cleanup.service.ts:84-86 | a pid is registered exactly when it is a key of the registry |
| CommandPalette.Filtered | apps/frontend/src/app/components/command-palette/command-palette.component.ts:206-215 | an empty query keeps all; otherwise exactly the commands whose lowercased label contains the lowercased query, in order |
| CommandPalette.ChatSearch | apps/frontend/src/app/components/command-palette/command-palette.component.spec.ts:64-78 | `chat` finds New Chat and Clear Chat, in order, and not Settings |
| CommandPalette.Toggled | apps/frontend/src/app/components/command-palette/command-palette.component.ts:190-196 | toggle flips the visibility and keeps the commands and the run log |
| CommandPalette.Executed | apps/frontend/src/app/components/command-palette/command-palette.component.ts:217-220 | the action runs once and the palette closes |
| CommandPalette.KeyStep | apps/frontend/src/app/components/command-palette/command-palette.component.ts:146-178 | no key changes the command list |
| CommandPalette.ShortcutToggles | apps/frontend/src/app/components/command-palette/command-palette.component.ts:148-151 | Cmd+K and Ctrl+K flip visibility; opening clears the query and selects the first command |
| CommandPalette.PlainKWhileHidden | apps/frontend/src/app/components/command-palette/command-palette.component.ts:148-151 | a bare `k` does nothing while hidden |
| CommandPalette.EscapeCloses | apps/frontend/src/app/components/command-palette/command-palette.component.ts:153-156 | Escape leaves the palette hidden and changes nothing else |
| CommandPalette.HiddenIgnoresKeys | apps/frontend/src/app/components/command-palette/command-palette.component.ts:158-177 | while hidden, every key but the shortcut is ignored |
| CommandPalette.ArrowUpStep | apps/frontend/src/app/components/command-palette/command-palette.component.ts:159-163 | ArrowUp sets the index to `max(i-1, 0)`, never negative |
| CommandPalette.ArrowDownStep | apps/frontend/src/app/components/command-palette/command-palette.component.ts:164-169 | ArrowDown sets the index to `min(i+1, len-1)`, which is -1 with no filtered command |
| CommandPalette.IndexAtLeastMinusOne | apps/frontend/src/app/components/command-palette/command-palette.component.ts:158-169 | no key takes the index below -1 |
| CommandPalette.ArrowsKeepIndexInRange | apps/frontend/src/app/components/command-palette/command-palette.component.ts:158-169 | an index on a filtered command stays on one under either arrow |
| CommandPalette.EnterRunsSelected | apps/frontend/src/app/components/command-palette/command-palette.component.ts:170-176 | Enter runs the selected filtered command once and closes when one exists there; otherwise nothing changes |
| CommandPalette.AtMostOneRun | apps/frontend/src/app/components/command-palette/command-palette.component.ts:146-178 | no key runs more than one command, and only Enter runs one |
| CommandPalette.CommandPaletteComponent.constructor | apps/frontend/src/app/components/command-palette/command-palette.component.ts:104-144 | hidden, empty query, index 0, the five commands |
| CommandPalette.CommandPaletteComponent.Open | apps/frontend/src/app/components/command-palette/command-palette.component.ts:180-184 | the state becomes that of `open` |
| CommandPalette.CommandPaletteComponent.Close | apps/frontend/src/app/components/command-palette/command-palette.component.ts:186-188 | the state becomes that of `close` |
| CommandPalette.CommandPaletteComponent.Toggle | apps/frontend/src/app/components/command-palette/command-palette.component.ts:190-196 | the state becomes Toggled |
| CommandPalette.CommandPaletteComponent.OnOverlayClick | apps/frontend/src/app/components/command-palette/command-palette.component.ts:198-200 | the palette closes |
| CommandPalette.CommandPaletteComponent.OnSearchChange | apps/frontend/src/app/components/command-palette/command-palette.component.ts:202-204 | the index returns to 0, nothing else changes |
| CommandPalette.CommandPaletteComponent.GetFilteredCommands | apps/frontend/src/app/components/command-palette/command-palette.component.ts:206-215 | exactly the commands whose label matches the query |
| CommandPalette.CommandPaletteComponent.ExecuteCommand | apps/frontend/src/app/components/command-palette/command-palette.component.ts:217-220 | the state becomes Executed |
| CommandPalette.CommandPaletteComponent.HandleKeydown | apps/frontend/src/app/components/command-palette/command-palette.component.ts:146-178 | the state becomes KeyStep of the old state |
| CommandPalette.KeyboardScenario | apps/frontend/src/app/components/command-palette/command-palette.component.spec.ts:19-95 | starts hidden; Cmd+K shows, Escape hides, Ctrl+K shows; running a command runs it once and hides; the overlay click hides |
| Sidebar.Deactivated | apps/frontend/src/app/components/sidebar/sidebar.component.ts:186-188 | every session becomes inactive, nothing else changes |
| Sidebar.NewChatFirst | apps/frontend/src/app/components/sidebar/sidebar.component.ts:184-199 | the list grows by one; the new `新しいチャット` session is first and the only active one; earlier sessions follow in order, otherwise unchanged |
| Sidebar.Selected | apps/frontend/src/app/components/sidebar/sidebar.component.ts:204-210 | length and order kept; a session is active exactly when its id is the selected one; nothing else changes |
| Sidebar.SelectLeavesOneActive | apps/frontend/src/app/components/sidebar/sidebar.component.ts:204-210 | with distinct ids, exactly the selected session is active |
| Sidebar.WithoutCount | apps/frontend/src/app/components/sidebar/sidebar.component.ts:214-218 | removing by id removes as many sessions as carry the id |
| Sidebar.Without | apps/frontend/src/app/components/sidebar/sidebar.component.ts:214-218 | exactly the sessions with another id remain, in order; the list shrinks by the number that had it |
| Sidebar.DeleteRemovesOne | apps/frontend/src/app/components/sidebar/sidebar.component.spec.ts:59-68 | with distinct ids, deleting a listed session shortens the list by one and no session with its id remains |
| Sidebar.Matching | apps/frontend/src/app/components/sidebar/sidebar.component.ts:222-234 | empty query keeps all; otherwise exactly the sessions whose lowercased title or preview contains the lowercased query, in order |
| Sidebar.TodaySessions | apps/frontend/src/app/components/sidebar/sidebar.component.ts:236-243 | exactly the sessions from today's midnight on |
| Sidebar.YesterdaySessions | apps/frontend/src/app/components/sidebar/sidebar.component.ts:245-254 | exactly the sessions from yesterday's midnight up to today's |
| Sidebar.OlderSessions | apps/frontend/src/app/components/sidebar/sidebar.component.ts:256-264 | exactly the sessions before yesterday's midnight |
| Sidebar.BucketsPartition | apps/frontend/src/app/components/sidebar/sidebar.component.ts:236-264 | when yesterday's midnight is not after today's, the three buckets together are the shown sessions, each in exactly one bucket |
| Sidebar.BucketsBounded | apps/frontend/src/app/components/sidebar/sidebar.component.spec.ts:79-100 | today's sessions are from today on; yesterday's are from yesterday and before today |
| Sidebar.SidebarComponent.constructor | apps/frontend/src/app/components/sidebar/sidebar.component.ts:152-182 | empty query, the three sessions, all shown |
| Sidebar.SidebarComponent.FilterSessions | apps/frontend/src/app/components/sidebar/sidebar.component.ts:222-234 | the shown sessions become Matching |
| Sidebar.SidebarComponent.CreateNewChat | apps/frontend/src/app/components/sidebar/sidebar.component.ts:184-202 | the list becomes that of NewChatFirst; the shown list is refreshed; `newChatCreated` is emitted |
| Sidebar.SidebarComponent.SelectSession | apps/frontend/src/app/components/sidebar/sidebar.component.ts:204-212 | the list becomes Selected; the shown list is not refreshed; the session is emitted |
| Sidebar.SidebarComponent.DeleteSession | apps/frontend/src/app/components/sidebar/sidebar.component.ts:214-220 | the list becomes Without; the shown list is refreshed; nothing is emitted |
| Sidebar.InitialSessionsFacts | apps/frontend/src/app/components/sidebar/sidebar.component.ts:156-176 | the initial ids are distinct and only the first session is active |
| Sidebar.SessionScenario | apps/frontend/src/app/components/sidebar/sidebar.component.spec.ts:23-68 | all shown at first; a new chat makes four with the active new one first; selecting the second makes it active; deleting the first leaves two without its id |
| Sidebar.TypeScriptSearch | apps/frontend/src/app/components/sidebar/sidebar.component.spec.ts:70-77 | `TypeScript` finds the first session, listed first |
| CommandInput.Submission | apps/frontend/src/app/components/command-input/command-input.component.ts:28-29 | something is sent exactly when the text is not all white space, and then it is the non-empty trimmed text |
| CommandInput.SubmissionIsTrimmed | apps/frontend/src/app/components/command-input/command-input.component.ts:28 | the sent text is the input less leading and trailing white space, and starts and ends with another character |
| CommandInput.PaddedSubmission | apps/frontend/src/app/components/command-input/command-input.component.ts:28-30 | text padded with white space is sent without the padding |
| CommandInput.PaddedListing | apps/frontend/src/app/components/command-input/command-input.component.spec.ts:77-95 | `  ls -la  ` is sent as `ls -la` |
| CommandInput.BlankNotSent | apps/frontend/src/app/components/command-input/command-input.component.spec.ts:60-75 | blank text is not sent |
| CommandInput.CommandInputComponent.constructor | apps/frontend/src/app/components/command-input/command-input.component.ts:23 | the field starts empty, nothing sent |
| CommandInput.CommandInputComponent.OnKeyDown | apps/frontend/src/app/components/command-input/command-input.component.ts:26-39 | Enter with non-blank text sends its trimmed form once and clears the field; blank Enter and other keys change nothing |
| CommandInput.EnterScenario | apps/frontend/src/app/components/command-input/command-input.component.spec.ts:22-75 | the padded command is sent once, trimmed, and the field is emptied; Enter on white space sends nothing and keeps the field |
| AnsiPipe.ReplaceAbsent | apps/frontend/src/app/pipes/ansi.pipe.ts:13-17 | text without the sequence is unchanged by its replacement |
| AnsiPipe.TwoPassesOneScan | apps/frontend/src/app/pipes/ansi.pipe.ts:13-17 | two global replacements equal one left-to-right scan when neither pass creates or breaks the other's sequence |
| AnsiPipe.ScanSymmetric | apps/frontend/src/app/pipes/ansi.pipe.ts:13-17 | for sequences that never start at the same place, the scan does not depend on which is tried first |
| AnsiPipe.TransformIsOneScan | apps/frontend/src/app/pipes/ansi.pipe.ts:11-21 | `transform` rewrites each red and each reset sequence where it starts and copies everything else |
| AnsiPipe.PassesCommute | apps/frontend/src/app/pipes/ansi.pipe.ts:13-17 | the two replacements commute |
| AnsiPipe.NoCodesUnchanged | apps/frontend/src/app/pipes/ansi.pipe.ts:13-17 | text with neither sequence, green ones included, comes back unchanged |
| AnsiPipe.RedExample | apps/frontend/src/app/pipes/ansi.pipe.spec.ts:19-29 | the test's red text is wrapped in a red span |
| Cors.CheckOrigin | apps/backend/src/main.ts:15-36 | the callback either allows or fails with the source's message |
| Cors.SomeHostMatchesIff | apps/backend/src/main.ts:29 | `some` over the patterns is "one of them matches" |
| Cors.CheckOriginIff | apps/backend/src/main.ts:15-36 | a non-empty origin passes exactly when it is one of the three loopback hosts, optionally followed by `:` and one or more digits |
| Cors.AllowedIsPlainHttpWithoutPath | apps/backend/src/main.ts:23-27 | whatever passes starts with `http://` and has no `/` after it |
| Cors.HostWithPortAllowed | apps/backend/src/main.ts:23-27 | each loopback host with any decimal port passes |
| Cors.BareHostAllowed | apps/backend/src/main.ts:23-27 | each loopback host without a port passes |
| Cors.LocalhostLookalikeRefused | apps/backend/src/main.ts:23-35 | `http://localhost` followed by anything but a port is refused |
| Cors.EmptyPortRefused | apps/backend/src/main.ts:24 | `http://localhost:` is refused |
| Cors.LongerHostRefused | apps/backend/src/main.ts:24 | `http://localhost.evil.com` is refused |
| Cors.HttpsRefused | apps/backend/src/main.ts:23-35 | https origins are refused |
| Cors.NoOriginAllowed | apps/backend/src/main.ts:17-20 | a missing or empty origin passes |
| JsText.ToLower | apps/frontend/src/app/components/command-palette/command-palette.component.ts:210-213 | lowercasing keeps the length and maps each character |
| JsText.TrimSpec | apps/frontend/src/app/components/command-input/command-input.component.ts:28 | `trim` returns the slice between the first and last characters that are not white space |
| JsText.TrimEmptyIff | apps/frontend/src/app/components/command-input/command-input.component.ts:29 | trimmed text is empty exactly when the text is all white space |
| JsText.DecimalInjective | apps/backend/src/app/pty-manager.service.ts:20 | different numbers print differently |
| Regex.MatchLitIff | apps/backend/src/services/command-filter.service.ts:5-38 | a literal pattern matches exactly where its text occurs |
| Regex.SearchFromIff | apps/backend/src/services/command-filter.service.ts:50-56 | `test` finds a match exactly when one exists at some position |
| Regex.RemoveAllNoMatch | apps/frontend/src/app/services/sanitization.service.ts:56-58 | removing the matches of a pattern that does not occur changes nothing |
| Lists.FilterMembers | apps/frontend/src/app/components/command-palette/command-palette.component.ts:206-215 | filtering keeps exactly the elements that pass |
| Lists.FilterOrdered | apps/frontend/src/app/components/command-palette/command-palette.component.ts:206-215 | filtering keeps the original order |
| BufferLimit.TailAt | apps/backend/src/services/buffer-limit.service.ts:14-22 | the i-th kept character is the matching character at the end of the text appended |
| CommandFilter.EmptyMatchesNothing | apps/backend/src/services/command-filter.service.ts:44-47 | no entry tests true on the empty command |
| CommandFilter.HarmlessByLetters | apps/backend/src/services/command-filter.service.ts:5-38 | text made of the placeholder's letters without `rm`, `sudo` or `dd` has no command word |
| CommandInput.TrimStartPadded | apps/frontend/src/app/components/command-input/command-input.component.ts:28 | leading white space is removed up to the first other character |
| CommandInput.TrimEndPadded | apps/frontend/src/app/components/command-input/command-input.component.ts:28 | trailing white space is removed after the last other character |
| CommandInput.CommandInputComponent.SetInputValue | apps/frontend/src/app/components/command-input/command-input.component.ts:13 | the two-way binding sets the field and sends nothing |
| CommandPalette.EmptyQueryKeepsAll | apps/frontend/src/app/components/command-palette/command-palette.component.ts:207-209 | an empty query keeps every command |
| CommandPalette.NewChatMatches | apps/frontend/src/app/components/command-palette/command-palette.component.spec.ts:64-78 | `chat` matches New Chat |
| CommandPalette.ClearChatMatches | apps/frontend/src/app/components/command-palette/command-palette.component.spec.ts:64-78 | `chat` matches Clear Chat |
| CommandPalette.SettingsDoesNotMatch | apps/frontend/src/app/components/command-palette/command-palette.component.spec.ts:64-78 | `chat` does not match Settings |
| CommandPalette.CommandPaletteComponent.SetSearchQuery | apps/frontend/src/app/components/command-palette/command-palette.component.ts:104 | the query input sets the query and nothing else |
| CommandPalette.CommandPaletteComponent.SetCommands | apps/frontend/src/app/components/command-palette/command-palette.component.ts:108 | the command list can be replaced and nothing else changes |
| Sidebar.EmptyQueryKeepsAll | apps/frontend/src/app/components/sidebar/sidebar.component.ts:223-225 | an empty query shows every session |
| Sidebar.CountIdOne | apps/frontend/src/app/components/sidebar/sidebar.component.ts:214-218 | with distinct ids, a listed session's id is carried once |
| Sidebar.TitlePrefixMatches | apps/frontend/src/app/components/sidebar/sidebar.component.ts:226-232 | a session whose title starts with the query, letters equal under lowercasing, matches it |
| Sidebar.SidebarComponent.SetSearchQuery | apps/frontend/src/app/components/sidebar/sidebar.component.ts:152 | the search box sets the query; sessions and the shown list stay as they were |
| Sanitization.TestOneChar | apps/frontend/src/app/services/sanitization.service.ts:26-34 | a one-character-class expression tests true exactly when some character is in its class |
| Sanitization.UnescapeEntity | apps/frontend/src/app/services/sanitization.service.ts:7-13 | each entity reads back as the character it stands for |
| Sanitization.EscapedSpecials | apps/frontend/src/app/services/sanitization.service.ts:121-123 | special characters escape to entity characters only |
| Sanitization.LitFoldKept | apps/frontend/src/app/services/sanitization.service.ts:15-24 | a case-folded literal cannot match text that lacks its first letter |
| Sanitization.TagFound | apps/frontend/src/app/services/sanitization.service.ts:47 | `<>&"'` is seen as holding HTML |
| Sanitization.StripKeeps | apps/frontend/src/app/services/sanitization.service.ts:56-58 | text that each remaining pattern leaves alone is left alone by the loop |
| Sanitization.UnchangedBy | apps/frontend/src/app/services/sanitization.service.ts:15-24 | lowercase text without `<`, `n`, `j` or `d` is left alone by every pattern |
| PtyCleanup.DropNothing | apps/backend/src/services/pty-cleanup.service.ts:33 | removing no pid keeps the list |
| PtyCleanup.AllKilled | apps/backend/src/services/pty-cleanup.service.ts:55-64 | when every listed pid has a `kill` function, the loop calls `kill` for all, in order |
| Regex.RemoveAll | apps/frontend/src/app/services/sanitization.service.ts:56-58 | removing matches shortens the text and introduces no character |

## Left out

- Real child processes, and the `executeCommand` the gateway calls. That method is not part of this model. Its result, or what it threw, is a parameter of `WebSocketGateway.Gateway.HandleMessage`.
- The session object's `write`, `resize`, `terminate` and `onData`/`onExit` hooks do nothing in the source, so the model keeps only the session's data. `onLifecycleEvent` also does nothing and is not modelled. `PTYProcessCreateRequest` is accepted but ignored, as in the source.
- Logging throughout.
- `formatBytes` and `getMemoryUsagePercent` are not modelled, because they are floating point (`Math.log`, `toFixed`, `Math.round`).
- `BufferLimit.Mean`: the average is an exact rational rather than a double.
- `getCircularBufferClass` only exposes the class to tests.
- Timers are deadlines on an abstract millisecond clock, and `AdvanceTime` fires those that are due. Callbacks that run in the same tick, and their order with other events, are not modelled.
- `PtyCleanup.Delay` models Node's clamping of out-of-range delays to 1 ms only for whole-millisecond timeouts.
- A process handle's `kill` is foreign code. A handle records only whether it has a `kill` function and whether calling it throws. The pids whose `kill` ran are recorded in a log.
- `crypto.randomUUID`, ISO timestamps and `Date.now` are left out. Clock readings are integer parameters, and frame ids and timestamps are not modelled.
- Socket.io and NestJS plumbing is left out: `isSocket`, `socketToWebSocketClient`, decorators, and everything in `bootstrap` except the CORS origin check.
- DOM handling is left out: `event.preventDefault()`, focus handling and templates. `bypassSecurityTrustHtml` is treated as the identity.
- The palette's and sidebar's icons and display text are left out. `formatDate` and `trackBySessionId` are display-only.
- Sidebar's day buckets take today's and yesterday's midnight as parameters. `setHours` and calendar arithmetic are not modelled.
- `JsText.ToLower` lowercases ASCII letters only, not the full Unicode case mapping.
- `Sanitization.SafeInput`: the code as written is not proved to leave no dangerous pattern, because it does not: each pattern is replaced once, and a removal can join its neighbours into a new match (see Findings). `Sanitization.CleanInput` states the intended result; the two are proved equal wherever one pass leaves no pattern, which includes every attack input of the tests.
- `BufferLimit.BufferLimitService.SetMaxBufferSize`: sizes are integers, while the source takes a JavaScript number. A NaN size passes the `size <= 0` guard, and then `length > maxSize` is never true, so `CircularBuffer` stops truncating. A fractional size is also accepted, and `substring` rounds the cut down. Neither is modelled.
- `BufferLimit.CircularBuffer.Append` and `BufferLimit.BufferLimitService.GetMemoryStats`: a string is a sequence of Unicode scalar values, while JavaScript's `length` counts UTF-16 code units. A character outside the Basic Multilingual Plane counts 2 in the source and 1 here. The source's truncation can therefore split a surrogate pair, and its `getSize`, `getMemoryStats` and `isMemoryWarning` totals differ from the model's for such text.
- `Sanitization.SanitizeOutput`: equality with the intended result is proved only for output that does not contain `__ANSI_`. The source's placeholders can collide with such text; see Findings.
- `Sidebar.SidebarComponent.GetTodaySessions`, `GetYesterdaySessions` and `GetOlderSessions` delegate to `Sidebar.TodaySessions`, `Sidebar.YesterdaySessions` and `Sidebar.OlderSessions`. The properties are stated on those functions.

## Findings

| source | as written | input that shows it | evidently intended | confidence | as-written member | corrected member |
|---|---|---|---|---|---|---|
| apps/frontend/src/app/services/sanitization.service.ts:79-90 | ANSI sequences are swapped for `__ANSI_<n>__` text and put back by replacing the first occurrence of each placeholder, so placeholder text already in the output is taken for a sequence | `__ANSI_0__` followed by ESC[31m | each ANSI sequence is kept in place and all other text is HTML-escaped | not executed | Sanitization.PlaceholderTextSwapped | Sanitization.SafeOutput |
| apps/frontend/src/app/services/sanitization.service.ts:56-58 | each dangerous pattern is removed by one global replace, in a fixed order, so removing a match can join its neighbours into a new match that is never searched for | `javajavascript:script:`, which comes back as `javascript:` | no dangerous pattern tests true on cleaned input | not executed | Sanitization.SchemeReformed | Sanitization.CleanInput |
