# hermitcrab availability lifecycle, modelled in Dafny

hermitcrab (`hermit`) keeps a personal development container running on a
Google Cloud instance. It reaches the container over an IAP tunnel, and the
instance suspends itself when it sits idle. This project models the logic
that decides when an instance is available:

- **Boot-log readiness parser** (`StatusLog`). `get_status_from_log` is
  modelled line by line. The model keeps Python's `re.MULTILINE` meaning of
  `^`/`$`, Python's whitespace set, and the unescaped dots of
  `0.0.0.0`.
- **The wait for the instance to start, `_create_bootcmd` and `up`'s status
  dispatch** (`Up`). The `up` command itself is in `UpCommand`.
- **The idle-suspend daemon** (`SuspendOnIdle`). It covers the `iptables`
  counter parser, `poll` as one tick at a time over finite tick sequences,
  and the fall-back from suspend to power-off.
- **The tunnel pid-file protocol** (`Tunnel`). The class `Tunnel.Host`
  holds the machine's state: the pid files, the live processes, the local
  port each tunnel process listens on and the ports other programs hold. A
  port is free when no other program holds it and no live tunnel process
  listens on it, so a tunnel that has exited releases its port. The teardown commands `Down` and `Delete` use it.
- **The ssh configuration rewrite** (`Ssh`). `remove_section` and the
  content `update_ssh_config` writes are functions. The class
  `Ssh.Files` holds the file system that `replace_if_changed` writes to.
- **`create`'s helpers and guards** (`Create`). These are the port choice,
  the name check, argument defaulting, the firewall rule and the volume
  creation guards.
- **gcloud argument coercion, status interpretation and the status wait**
  (`Gcp`).

Anything outside the machine is an oracle: the gcloud listings, the
serial-port polls, the `iptables` output, the clock and the pid a spawned
process gets are all parameters. Every call that changes the cloud or the
configuration store is recorded as an `Effects.Step` in a returned trace.
This makes ordering and "nothing deleted" properties statable.
`Effects.Destructive` marks the deleting steps. Python's integers are
unbounded, and so are Dafny's `int`s. Text is `seq<char>`.

The code is followed where it and the project's test file for the status
parser disagree. Those tests expect a `Starting check filesystem` marker, a
`Status: Downloaded` line and errors on an unreadable superblock or a
missing sshd. `get_status_from_log` in `hermitcrab/command/up.py` matches
`Checking filesystem` and raises only through its division.

## Model

| member | source | states |
|---|---|---|
| Text.ParseIntToString | hermitcrab/tunnel.py:30-68 | the pid text `str()` writes reads back with `int()` as the same integer |
| Text.JoinSplit | hermitcrab/deploy_scripts/suspend_on_idle.py:88 | splitting on a separator loses nothing: joining the pieces gives the text back |
| Text.SplitJoin | hermitcrab/deploy_scripts/suspend_on_idle.py:88 | pieces free of the separator, joined and split again, come back unchanged |
| Text.SplitSingleIffExcludes | hermitcrab/gcp.py:20 | a text splits into one piece exactly when it lacks the separator |
| Text.StripBlank | hermitcrab/gcp.py:18 | `strip()` is empty exactly when the text is all whitespace |
| Text.StripUnchanged | hermitcrab/gcp.py:21 | text with no whitespace at either end is its own strip |
| Text.LtTransitive | hermitcrab/ssh.py:62 | the string order `sorted` uses is transitive |
| Text.LtTotal | hermitcrab/ssh.py:62 | any two different strings are ordered one way or the other |
| Gcp.ArgText | hermitcrab/gcp.py:5-7 | an argument has a text exactly when it is a str, an int (bools included) or a float |
| Gcp.IntArgRoundTrip | hermitcrab/gcp.py:7 | an int argument reaches the command line as text that reads back as the same int |
| Gcp.GcloudCommand | hermitcrab/gcp.py:4-9 | the first argument of another type fails the assertion before anything runs; otherwise the command line is `gcloud` followed by each argument's `str()`, in order |
| Gcp.InstanceStatus | hermitcrab/gcp.py:17-21 | a returned status is the stripped listing; "no instance" is returned only with `one_or_none` |
| Gcp.InstanceStatusCases | hermitcrab/gcp.py:17-21 | no instance exactly for an all-whitespace listing under `one_or_none`; the assertion fails exactly when a line break survives the strip; a blank listing without `one_or_none` is `""` |
| Gcp.InstanceStatusOfLine | hermitcrab/gcp.py:11-21 | a status word printed on its own line reads back as that word |
| Gcp.WaitForInstanceStatus | hermitcrab/gcp.py:23-34 | the wait ends at the first poll that lists the goal, lists a malformed status, or comes at or after the deadline without the goal; every earlier poll kept it going; what it prints is each status that differs from the previous poll's |
| Gcp.AnnouncedLast | hermitcrab/gcp.py:30-33 | the last status printed is the last status seen |
| Gcp.AnnouncedNoRepeats | hermitcrab/gcp.py:30-33 | no status is printed twice in a row |
| Gcp.AnnouncedSameStatuses | hermitcrab/gcp.py:30-33 | every status seen is printed at some point, and only statuses seen are |
| Gcp.EndedFirstStop | hermitcrab/gcp.py:26-32 | the poll the outcome names is the first one that stops the wait |
| Gcp.EndedUnique | hermitcrab/gcp.py:26-32 | the polls decide the outcome: no two outcomes fit the same polls |
| StatusLog.Lines | hermitcrab/command/up.py:405 | the lines `^` and `$` see under `re.MULTILINE`: at least one, and none holds a newline |
| StatusLog.FirstIndex | hermitcrab/command/up.py:405-434 | the line `re.search` matches is the first matching line, and none is found exactly when no line matches |
| StatusLog.LastIndex | hermitcrab/command/up.py:416-420 | the record `findall(...)[-1]` gives is the last matching line |
| StatusLog.MatchPulling | hermitcrab/command/up.py:428-430 | the pulling group is the line's tail from the leftmost place where `Pulling from` and one non-space run end the line |
| StatusLog.MatchProgressComplete | hermitcrab/command/up.py:416-418 | every line of exactly four fields (three digit runs and a non-space run, single spaces between them) matches the progress pattern with those fields |
| StatusLog.MatchProgressSound | hermitcrab/command/up.py:416-418 | every match of the progress pattern is such a four-field line |
| StatusLog.FailsIffZeroMaximum | hermitcrab/command/up.py:415-426 | the parser raises exactly when a check started, none finished, and the last progress record has a zero maximum |
| StatusLog.ReadyIffServerListening | hermitcrab/command/up.py:432-437 | ready exactly when some line matches the listening pattern; then the first such line, whole, is the last status entry |
| StatusLog.ProgressOnlyWhileChecking | hermitcrab/command/up.py:405-426 | a progress entry is present exactly when some line starts a check, no line finishes it and some line is a progress record |
| StatusLog.ProgressUsesLastRecord | hermitcrab/command/up.py:416-426 | the progress entry renders the last progress record, with the percent truncated toward zero |
| StatusLog.StatusEntriesOrdered | hermitcrab/command/up.py:405-434 | entries come in the order check marker, finished marker, progress, pulling, listening, each at most once |
| StatusLog.NoMarkersNoStatus | hermitcrab/command/up.py:399-437 | a log with none of the five patterns gives `(False, [])`, and only such a log does |
| StatusLog.ParseSameSearch | hermitcrab/command/up.py:405-434 | two logs with the same first and last matching line for every pattern parse the same |
| StatusLog.ReparseDuplicated | hermitcrab/command/up.py:399-437 | a log that ends a line parses like the same log written twice |
| StatusLog.DuplicatedLogWithoutFinalNewline | hermitcrab/command/up.py:416-426 | without a final newline, the doubled log can join two lines into a progress record the log itself lacks |
| StatusLog.SampleProgressRecord | hermitcrab/command/up.py:418-425 | the record `5 3199 3200 /dev/sdb` renders as `Progress (Phase 5): 99%` |
| StatusLog.SampleListeningLine | hermitcrab/command/up.py:432-435 | sshd's announcement sets the ready flag, and so does any character in place of the unescaped dots |
| Up.CreateBootCmd | hermitcrab/command/up.py:51-94 | the list built by appending, SSD by SSD, is the boot-command list `BootCmd` describes |
| Up.BootCmdLength | hermitcrab/command/up.py:51-94 | the list has 13 fixed commands, plus one without local SSDs, or 3 per SSD and 3 more for /tmp on the first |
| Up.BootCmdBindsTmpOnce | hermitcrab/command/up.py:56-78 | /tmp is bind-mounted exactly once: from /var/tmp without local SSDs, from the first SSD otherwise |
| Up.SsdBlocksBindOnce | hermitcrab/command/up.py:62-78 | among the commands of `n` SSDs, the only /tmp bind is the first SSD's |
| Up.FreshDistinct | hermitcrab/command/up.py:379-383 | the first occurrences of a list of lines are all different |
| Up.FreshSameLines | hermitcrab/command/up.py:379-383 | the first occurrences hold every line of the list and nothing else |
| Up.ShowNewStatus | hermitcrab/command/up.py:380-383 | each entry not shown before goes to the callback with the log-file prefix; the lines remembered grow by exactly the entries |
| Up.NewStatusFresh | hermitcrab/command/up.py:380-383 | after the lines already shown, the new status lines are the first occurrences the entries add |
| Up.NewStatusOnlyStatus | hermitcrab/command/up.py:380-383 | the inner loop shows status lines only |
| Up.ObservePoll | hermitcrab/command/up.py:363-383 | an empty log is never parsed; a refused connection is noted only when verbose; a verbose poll shows the log past the part shown before; the parsed status lines not seen before are shown |
| Up.WaitForInstanceStart | hermitcrab/command/up.py:329-396 | returns at the first ready poll, raises at the first parse error or the first non-ready poll past the timeout, and shows what the polls it made show |
| Up.PollStep | hermitcrab/command/up.py:342-392 | one loop pass either ends the wait with the outcome the polls decide or leaves the outcome to the later polls |
| Up.WaitOutcomeMeaning | hermitcrab/command/up.py:385-392 | the outcome is the only one where every earlier poll kept the wait going and the named poll ends it for the reason given |
| Up.WaitShowsFreshStatus | hermitcrab/command/up.py:337-383 | across the wait, the status lines shown are the first occurrences of all parsed entries, in order, and the remembered set is exactly those entries |
| Up.NextViewShowsFreshStatus | hermitcrab/command/up.py:363-383 | one poll keeps that correspondence between shown lines and parsed entries |
| Up.WaitShowsEachStatusOnce | hermitcrab/command/up.py:337-383 | each status line is shown at most once across the whole wait, and every entry of every parsed log is shown |
| Up.QuietWaitShowsOnlyStatus | hermitcrab/command/up.py:363-383 | without verbose, the callback receives status lines and nothing else |
| Up.VerboseWaitShowsLog | hermitcrab/command/up.py:372-375 | with verbose, the last non-empty log is remembered, and while each log extends the previous one the text shown is exactly the latest log |
| Up.VerboseStep | hermitcrab/command/up.py:372-375 | one verbose poll makes a non-empty log the one last shown and, when it extends the one before, grows the text shown to exactly it |
| UpCommand.Dispatch | hermitcrab/command/up.py:286-303 | TERMINATED is refused; a missing instance is created; a running one is left alone; a suspended one is resumed; any other status is refused; each direction holds |
| UpCommand.Prepare | hermitcrab/command/up.py:269-303 | without image access nothing goes on; it goes on exactly when the listing is one line with no, a RUNNING or a SUSPENDED instance, and then with at most one non-destructive provider action |
| UpCommand.RefreshTunnel | hermitcrab/command/up.py:308-320 | a running tunnel is signalled and a stopped one is not; the new tunnel starts exactly when the port is free at the check after the signal, that is, with the old process gone if it exited; the new pid files, live processes and listening ports are exactly the old ones with the exited process removed and, on success, the new pid recorded, live and listening on the port, which then reads as taken; the ports of other programs do not change |
| UpCommand.RerunStartsIffExited | hermitcrab/command/up.py:308-320 | re-running over a live tunnel that alone holds its port starts the new tunnel exactly when the old process has exited by the port check |
| Tunnel.ExitedTunnelFreesPort | hermitcrab/tunnel.py:18-68 | a live tunnel process keeps its port taken; once it has exited, the port is free exactly when nothing else holds it |
| UpCommand.UpdateLocal | hermitcrab/command/up.py:308-326 | succeeds exactly when the new tunnel starts (the port free after the signal) and the ssh configuration can be rewritten; a tunnel failure leaves the ssh configuration alone; the machine's new state is exactly the tunnel step's, as for RefreshTunnel; on success the steps are tunnel stop (if running), spawn, ssh update and default, and the ssh configuration holds the regenerated text |
| UpCommand.Up | hermitcrab/command/up.py:266-326 | nothing local changes unless the instance started; once it started, the machine's new state is exactly the tunnel step's, as for RefreshTunnel; it succeeds exactly when access, status, wait, the port at the check after the signal and the ssh configuration all allow it; it never issues a destructive step |
| SuspendOnIdle.TakeRun | hermitcrab/deploy_scripts/suspend_on_idle.py:96 | the run a greedy `\s+` or `\d+` takes: all its characters qualify and the rest does not start with one |
| SuspendOnIdle.MatchCounters | hermitcrab/deploy_scripts/suspend_on_idle.py:96-99 | a match yields a non-empty digit run, the second counter |
| SuspendOnIdle.MatchCountersComplete | hermitcrab/deploy_scripts/suspend_on_idle.py:96-99 | every line of the counter shape matches, with its byte count as group 2 |
| SuspendOnIdle.MatchCountersSound | hermitcrab/deploy_scripts/suspend_on_idle.py:96-99 | every match comes from a line of the counter shape |
| SuspendOnIdle.BytesTransmittedMeaning | hermitcrab/deploy_scripts/suspend_on_idle.py:86-104 | a count is read exactly when the output has four pieces and the third has the counter shape; the count is that line's second number |
| SuspendOnIdle.BytesTransmittedNeedsFourPieces | hermitcrab/deploy_scripts/suspend_on_idle.py:91-95 | output whose newline count is not three never yields a count |
| SuspendOnIdle.SampleBytesTransmitted | hermitcrab/deploy_scripts/suspend_on_idle.py:107-110 | the documented sample reads as 12560 bytes |
| SuspendOnIdle.Poll | hermitcrab/deploy_scripts/suspend_on_idle.py:37-53 | with the two clock readings of each tick (the one taken on a change and the one the idle check uses), the loop suspends exactly at the ticks `SuspendsAt` says |
| SuspendOnIdle.NoSuspendOnChange | hermitcrab/deploy_scripts/suspend_on_idle.py:42-47 | a tick whose sample differs from the previous one, the initial None included, takes its change reading as the last activity, and suspends exactly when its check reading is more than the timeout past it |
| SuspendOnIdle.SameSampleKeepsActivity | hermitcrab/deploy_scripts/suspend_on_idle.py:42-45 | identical consecutive samples keep the last activity time |
| SuspendOnIdle.StillIdleSuspendsAgain | hermitcrab/deploy_scripts/suspend_on_idle.py:46-53 | suspending does not reset the last activity, so an instance still idle at the next tick is suspended again |
| SuspendOnIdle.LastChangeIsATick | hermitcrab/deploy_scripts/suspend_on_idle.py:38-44 | the last activity time is the start or the change reading of a tick seen |
| SuspendOnIdle.SuspendInstance | hermitcrab/deploy_scripts/suspend_on_idle.py:60-83 | the suspend command always runs first; power-off runs exactly when it returned non-zero |
| Tunnel.Host.constructor | hermitcrab/tunnel.py:30-42 | the machine starts with the pid files, live processes, listening ports and other programs' ports given |
| Tunnel.Host.ReadPid | hermitcrab/tunnel.py:30-37 | no pid file gives None; otherwise the file's integer, and text that is not one is the `int()` error |
| Tunnel.Host.IsTunnelRunning | hermitcrab/tunnel.py:40-42 | running exactly when a pid is recorded and that pid is live |
| Tunnel.Host.StartTunnel | hermitcrab/tunnel.py:18-68 | a port held by another program or a live tunnel fails the assertion with nothing changed; otherwise the spawned pid is live, listens on the port and is exactly what the pid file holds, so the tunnel reads as running and the port as taken |
| Tunnel.Host.StopTunnel | hermitcrab/tunnel.py:71-76 | no pid file: no effect; otherwise SIGTERM to the recorded pid, which fails when no such process exists; the pid file stays; the signal only asks the process to end, so the tunnel is not running afterwards, and its port is released, exactly when the process exited (the `exited` answer) |
| Ssh.MarkersAreLines | hermitcrab/ssh.py:36-37 | both markers are single lines |
| Ssh.StartMarkerLacksEnd | hermitcrab/ssh.py:36-37 | the end marker does not occur inside the start marker |
| Ssh.RemoveSection | hermitcrab/ssh.py:40-46 | text without the start marker comes back unchanged; a missing end marker is the `index` error |
| Ssh.RemoveSectionFound | hermitcrab/ssh.py:43-46 | otherwise the text from the first start marker to the end of the first end marker is cut, keeping prefix and suffix |
| Ssh.RemoveAppendedSection | hermitcrab/ssh.py:40-102 | removing a section appended to `C` gives back `C` when `C` holds neither marker and ends a line |
| Ssh.LastByNameNames | hermitcrab/ssh.py:59 | deduplication keeps exactly the names given |
| Ssh.LastByNameEntries | hermitcrab/ssh.py:59 | the configuration kept for a name is the one given last under it |
| Ssh.LastByNameUnique | hermitcrab/ssh.py:59 | no name is kept twice |
| Ssh.SortByNameSorted | hermitcrab/ssh.py:62 | sorting distinct names yields them in increasing order, with the same entries |
| Ssh.HostsSpec | hermitcrab/ssh.py:59-62 | the section lists each name once, in increasing order, with the configuration given last under it |
| Ssh.EnsureFinalNewline | hermitcrab/ssh.py:74-79 | the kept text ends a line and starts with the text it was given (the intended fix; see Findings) |
| Ssh.NewlineStepAsWrittenLosesText | hermitcrab/ssh.py:78-79 | as written, a file whose last line lacks a newline loses all its own text |
| Ssh.SshConfigTextKeepsUserText | hermitcrab/ssh.py:72-102 | whenever the old section can be removed, the new content starts with everything of the file outside that section |
| Ssh.SectionOnlyWithInstances | hermitcrab/ssh.py:81-102 | a section is appended exactly when there are instances; with none the content is the kept text alone |
| Ssh.SectionRemoved | hermitcrab/ssh.py:40-102 | the section written after the kept text is exactly what the next update removes |
| Ssh.UserTextOfOutput | hermitcrab/ssh.py:72-102 | the text kept from the update's own output is the text kept before |
| Ssh.SshConfigTextIdempotent | hermitcrab/ssh.py:57-104 | running the update on its own output changes nothing, when the kept text holds no marker and no name holds a `#` |
| Ssh.BackupName | hermitcrab/ssh.py:19 | the backup is the path, a dot and the clock's whole seconds |
| Ssh.ReplacedSpec | hermitcrab/ssh.py:9-33 | afterwards the file reads as the new content; a changed existing file's previous text is in the backup; no other file changes; empty content for a missing file changes nothing |
| Ssh.ReplacedIdempotent | hermitcrab/ssh.py:9-33 | replacing twice with the same content is replacing once |
| Ssh.Files.constructor | hermitcrab/ssh.py:9-16 | the file system starts with the files given |
| Ssh.Files.ReplaceIfChanged | hermitcrab/ssh.py:9-33 | the files become the `Replaced` state; a backup is made exactly when the file existed with other text, under the timestamped name |
| Ssh.BuildSection | hermitcrab/ssh.py:81-99 | the section built host by host is the header followed by one block per host, each naming the instance and its local port |
| Ssh.UpdateSshConfig | hermitcrab/ssh.py:57-104 | the file afterwards holds the kept text plus the new section; a start marker without an end marker is the error, with no change |
| Create.FindUnusedPort | hermitcrab/command/create.py:156-163 | 3022 with no configurations; otherwise one past the largest used port |
| Create.NextPortUnusedAndUnique | hermitcrab/command/create.py:156-163 | the chosen port is used by no configuration, and it is the only possible answer |
| Create.MatchesGcpNamePrefixMeaning | hermitcrab/command/create.py:215 | the as-written match succeeds exactly when some non-empty prefix consists of allowed characters |
| Create.IsValidGcpName | hermitcrab/command/create.py:214-218 | a name is valid exactly when it is non-empty and made of lowercase letters, digits and dashes only (the intended check; see Findings) |
| Create.GcpNameCheckAsWritten | hermitcrab/command/create.py:215 | as written, `"a_B"` passes while the intended check refuses it; `""` and `"Ab"` fail |
| Create.ValidGcpNameMatches | hermitcrab/command/create.py:214-218 | every name the intended check accepts passes the check as written |
| Create.OrDefault | hermitcrab/command/create.py:233-251 | the value given wins; the gcloud default is used otherwise; None only when both are missing |
| Create.ResolveCreate | hermitcrab/command/create.py:222-278 | instance name then disk name are checked; the disk name defaults to `<name>-pd`; project and zone fall back to gcloud and must be known; a missing port is the next unused one; an empty service account is replaced by the default one |
| Create.EnsureFirewallSetup | hermitcrab/command/create.py:112-153 | the rule is created exactly when none is listed; otherwise exactly one rule, set as expected, is accepted, and the listing is the only call |
| Create.FirewallSetupIdempotent | hermitcrab/command/create.py:112-153 | a second run lists the rule it created, accepts it and creates nothing |
| Create.FormatVolume | hermitcrab/command/create.py:48-109 | the disk and the temporary instance are created; the instance is deleted exactly when the wait saw it terminate |
| Create.CreateVolume | hermitcrab/command/create.py:20-109 | an existing disk or instance fails its guard before anything is created; otherwise the volume is formatted |
| Create.CreateAfterFirewall | hermitcrab/command/create.py:190-211 | succeeds exactly when the volume is created and the ssh configuration can be rewritten; on success the calls are the volume's, then the configuration write, the ssh update and the default; a volume failure writes no configuration; a failing ssh rewrite comes after the configuration write and stops before the default is set |
| Create.Create | hermitcrab/command/create.py:166-211 | empty settings or an existing configuration stop it first; it succeeds exactly when every guard, the firewall, the volume and the ssh rewrite succeed, and then the calls are the firewall's, the volume's, the configuration write, the ssh update and the default, in that order; a failure before the record steps writes no configuration; a failing ssh rewrite leaves the configuration written but no ssh update and no default |
| Down.Down | hermitcrab/command/down.py:6-34 | the tunnel is signalled exactly when running, before the status is queried; the instance is deleted exactly when one exists, by its name, zone and project; a stopped tunnel stays stopped, and a running one is stopped afterwards exactly when its process exited |
| Delete.Delete | hermitcrab/command/delete.py:10-52 | the disk and the configuration are deleted exactly when the tunnel is stopped, no instance exists and the disk's name was typed or `force` given; an early stop deletes nothing |
| Delete.DeleteStepsOrder | hermitcrab/command/delete.py:27-52 | the disk goes before the configuration; a prompt is issued exactly without `force`, before both |

## Left out

- Process, socket, subprocess and gcloud execution are not modelled. `os.kill`, `socket.bind`, `input()` and the gcloud calls are replaced by their answers as parameters, or by the state of `Tunnel.Host`. `gcloud_in_background` is the `pid` parameter of `StartTunnel`.
- Clocks, sleeps, logging and printing are left out. Times are parameters: integer seconds in `SuspendOnIdle`, elapsed seconds as `real` in the waits. Only the status text the waits show is kept.
- `int(current*100/max)` uses float division. It is modelled as integer division, which can differ from the float result only for very large counters.
- StatusLog.FailsIffZeroMaximum: only the `ZeroDivisionError` is modelled. Python's true division also raises `OverflowError` when `current*100` or `max` is too large for a float (above about 1.8e308). The model computes such a percentage instead, because it does not model floats.
- Text.IsDigit: digits are the ASCII `0`-`9`. Python's `\d` in a str pattern and `int()` also accept any other Unicode decimal digit, and `int()` accepts single underscores between digits (`int("1_0")` is 10). The same holds for Text.ParseNat, Text.ParseInt, StatusLog.MatchProgress, SuspendOnIdle.MatchCounters and Tunnel.Host.ReadPid, which are built on it. Text with such digits does not match or reads as the `int()` error here. The pid files and the logs the program reads hold ASCII digits only.
- SuspendOnIdle.MatchCounters: `\d` is modelled as the ASCII digits only (see Text.IsDigit).
- StatusLog.MatchProgress: `\d` is modelled as the ASCII digits only (see Text.IsDigit).
- Tunnel.Host.ReadPid: `int()` is modelled without Unicode digits and underscores (see Text.IsDigit).
- Ssh.ReadText: files are read as raw text. Python's text mode (`open(..., "rt")` at hermitcrab/ssh.py:15, hermitcrab/ssh.py:67 and hermitcrab/tunnel.py:35) also turns `\r\n` and `\r` into `\n`. The model does not, so a file with Windows line endings reads differently in Ssh.UpdateSshConfig, Ssh.Files.ReplaceIfChanged and Tunnel.Host.ReadPid.
- Tunnel.Host.StopTunnel: the process's reaction to SIGTERM is the oracle `exited`, which says whether it has ended by the next look at the machine (for `up`, the port check of `start_tunnel`). Whether and when it exits is not modelled.
- The ports other programs hold (`Tunnel.Host.bound`) are fixed: programs outside hermitcrab binding or releasing ports meanwhile are not modelled.
- Create.Create: failures of `set_default_instance_config` and of the configuration write are not modelled. Those steps always succeed here.
- The infinite loops are modelled over finite sequences. `poll` runs over finitely many ticks. When the given polls run out, `Up.WaitForInstanceStart` ends with `StillStarting` and `Gcp.WaitForInstanceStatus` with `StillWaiting`, where the source would keep polling.
- `gcp.gcloud` is shown without the `capture_stdout` and `timeout` parameters that its callers pass. The model takes the captured listing as the status output.
- `has_access_to_docker_image`, `get_grant_instructions` and `ensure_access_to_docker_image` are not part of this model. `up`'s access check is the boolean `hasAccess`. `create`'s access step (hermitcrab/command/create.py:184) is not modelled.
- The template and YAML text is not modelled. This covers `create_instance`, `_create_cloud_config`, `_dict_to_yaml_str` and the systemd units (hermitcrab/command/up.py:97-263). Creating an instance is the step `InstanceCreate`, and `resume_instance` is the step `InstanceResume`.
- The configuration store (`config.py`) is not modelled. Reading configurations is a parameter. Writing, deleting and setting the default are the steps `ConfigWrite`, `ConfigDelete` and `DefaultConfigSet`. `suspend_on_idle_timeout` and `boot_disk_size_in_gb` are not among the modelled fields.
- `get_or_create_default_service_account` is the parameter `defaultServiceAccount`. `create_service_account.py` is not part of this model.
- `get_pub_key`, `get_ssh_dir` and `get_ssh_config_path` are not modelled; the ssh configuration's path is a parameter.
- The suspend daemon's `main`, its option parsing and the minute-to-second conversion are not modelled.
- `Up.WaitForInstanceStart` takes the boot-log parser as a value, so the loop is proved for any parser. `UpCommand.Up` passes it `StatusLog.GetStatusFromLog`.
- Create.FormatVolume: the temporary instance's startup script text is not modelled; only the calls and their order are.
- Ssh.UpdateSshConfig: the rest of the model uses the corrected newline step (see Findings). The as-written step is `Ssh.EnsureFinalNewlineAsWritten`, and its consequence is proved in `Ssh.NewlineStepAsWrittenLosesText`.
- Create.ResolveCreate: validates names with the intended full-name check (see Findings). The as-written prefix match is `Create.MatchesGcpNamePrefix`.

## Findings

| source | as written | input that shows it | evidently intended | confidence | as-written member | corrected member |
|---|---|---|---|---|---|---|
| hermitcrab/ssh.py:78-79 | remaining text that does not end in a newline is replaced by `"\n"` | an ssh configuration file holding `Host x` with no final newline | append `"\n"`, as the comment above it says, keeping the user's text | high; not executed | Ssh.NewlineStepAsWrittenLosesText | Ssh.SshConfigTextKeepsUserText |
| hermitcrab/command/create.py:215 | `re.match("[a-z0-9-]+", name)` is anchored at the start only | the name `a_B` passes | the whole name made of lowercase letters, digits and dashes, as the message says | high; not executed | Create.GcpNameCheckAsWritten | Create.IsValidGcpName |
