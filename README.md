# envoy, modelled in Dafny

envoy keeps one ssh-agent or gpg-agent per user and makes every shell of
that user talk to it. Three programs share the work:

- **envoyd** is the daemon. It listens on a unix socket and checks the
  peer's credentials. It keeps a registry with one node per uid. It starts
  the agent binary when a user has none, or when that user's agent died. It
  parses the `NAME=value;` lines the agent prints into an `agent_data_t`
  record and writes that record back to the client. On SIGINT or SIGTERM it
  sends SIGTERM to every agent it started.
- **envoy** is the client. It fetches the record. It exports
  `SSH_AUTH_SOCK`. For a gpg-agent it tells the agent about the terminal
  over the Assuan control socket (`RESET`, `OPTION ttyname=…`, …,
  `UPDATESTARTUPTTY`). Then it performs the chosen action: add keys with
  ssh-add, print `export` lines, list the keys, send SIGHUP or SIGTERM to
  the agent. Invoked as `ssh`, it runs the real ssh instead.
- **envoy-exec** is the wrapper. It sources the agent's environment. It
  reads the command a `#!` script names: the first line after the `#!`
  line that holds more than '#', tab and space characters, with its
  leading '#', tab and space characters skipped, so `# ssh` names `ssh`.
  It executes that command, searching `PATH`. It never executes a path
  whose realpath is the path it stands for itself: the script's path as
  given in argv[0], or the realpath of `/proc/self/exe`.

The model has one module per concern:

| file | module | models |
|---|---|---|
| `ctext.dfy` | `CText` | strcspn, strchr on a NUL-terminated buffer, splitting at a separator, `%d` and atoi |
| `agents.dfy` | `Agents` | `enum agent`, the status codes, `agent_data_t` |
| `process.dfy` | `Process` | what a successful `execv` leaves behind: the path and the NULL-terminated argument vector |
| `announcement.dfy` | `Announcement` | `parse_agentdata_line` and `parse_agentdata`: one read into an array buffer, then a walk over its lines |
| `envoyd.dfy` | `Envoyd` | `find_agent`, `start_agent`, `get_socket`, the connection loop (the value function `Serve` and the `Daemon` class that runs it), `cleanup`, `sighandler` |
| `envoy_exec.dfy` | `EnvoyExec` | `strstrip`, `extract_binary`, `safe_execv`, `exec_from_path`, `exec_wrapper`, `source_agent_env`, the argv shift of `main` |
| `envoy.dfy` | `Envoy` | `get_key_path`, `add_keys`, `exec_ssh`, `gpg_send_message(s)`, `gpg_update_tty`, `print_env`, `source_env`, `get_agent`, the option loop and the action switch of `main` |

Code that changes state step by step is imperative Dafny:

- envoyd's global state is the `Envoyd.Daemon` class. Its registry, the
  linked list `agents`, is a `seq` field, head first.
- The open connection to gpg-agent is the `Envoy.AgentSocket` class. It
  records the frames written and holds the replies still to be read.
- The process environment envoy-exec changes is the `EnvoyExec.Environment`
  class.
- The array walks are methods over `array<char>` with loop invariants:
  `parse_agentdata`, `strstrip`, `extract_binary`, the argument vectors of
  `add_keys`, `exec_ssh` and `exec_wrapper`, and the message buffer of
  `gpg_send_message`.

Each such method is proved equal to a function, and the properties are
proved about that function.

Everything the programs learn from the operating system becomes a
parameter:

- the passwd entry, and which paths exist or can be executed;
- what `read` returns, and whether `write`, `kill(pid, 0)` or `wait` fail;
- the peer's credentials;
- `PATH`, `realpath`, `/proc/self/exe`, `ttyname`, `$TERM` and `$DISPLAY`.

`execv` succeeding is a `Launch` value. `err`/`errx` is a `Fault`.

## Model

| member | source | states |
|---|---|---|
| CText.FieldEnd | src/envoy-exec.c:110 | strcspn: the index found is in range and holds the separator when it is below the length |
| CText.FieldEndSpec | src/envoy-exec.c:110 | no separator comes before the index strcspn returns |
| CText.FieldEndAtLeast | src/envoy-exec.c:110 | a prefix free of the separator lies entirely before the first separator |
| CText.FieldEndAfter | src/envoy-exec.c:110 | in `a + [c] + b` with `c` not in `a`, the first `c` is at `|a|` |
| CText.FindBeforeNul | envoyd.c:128 | strchr on the buffer: a found index holds the character |
| CText.FindBeforeNulFirst | envoyd.c:128 | the index found is the first occurrence, with no NUL before it; when nothing is found, every occurrence has a NUL before it |
| CText.FindBeforeNulAt | envoyd.c:128 | the scan stops at the first newline of a prefix that holds neither a newline nor a NUL |
| CText.SplitFields | src/envoy-exec.c:139-140 | no field of a split holds the separator |
| CText.JoinSplit | src/envoy-exec.c:139-140 | splitting loses nothing: joining the fields with the separator gives back the string |
| CText.SplitCons | src/envoy-exec.c:111 | a field free of the separator, followed by the separator, is the first field, and the rest splits on its own |
| CText.Digits | envoy.c:182 | `%d` of a natural number is a non-empty string of decimal digits |
| CText.FormatIntChars | envoy.c:182 | `%d` prints only digits and a leading minus sign |
| CText.LeadingDigitsSpec | envoyd.c:109 | the digits atoi reads are a prefix, all digits, and end only at a non-digit |
| CText.AtoiFormatInt | envoyd.c:109 | atoi reads back exactly the number `%d` printed, negative numbers included |
| Process.WrappedAt | src/envoy-exec.c:167-168 | each argument lands at its own index of the argument vector |
| Announcement.CutAtSemicolonSpec | envoyd.c:97-99 | the cut keeps a prefix of the line free of ';' and stops only at a ';' |
| Announcement.CutAfter | envoyd.c:97-99 | a prefix free of ';' followed by ';' is exactly what the cut keeps |
| Announcement.AssignSpec | envoyd.c:101-104 | a line assigns something exactly when its cut holds an '='; then name, '=' and value make up the cut line, with no '=' in the name |
| Announcement.AssignAfterName | envoyd.c:101-104 | `name=rest` assigns the cut of `rest` to `name` |
| Announcement.ApplyLine | envoyd.c:93-112 | a line never changes the status, kind or first_run of the record |
| Announcement.ApplyLineFrame | envoyd.c:101-111 | a line with no '=' before its first ';' leaves the record alone; values that fit keep the record within PATH_MAX |
| Announcement.LinesClean | envoyd.c:127-135 | every line the walk hands over is free of newlines and NULs |
| Announcement.ApplyLinesFits | envoyd.c:127-135 | lines whose values all fit keep the record within its capacities |
| Announcement.ApplyLinesAppend | envoyd.c:127-135 | applying `a + b` is applying `a`, then `b` |
| Announcement.LastAssignmentWins | envoyd.c:106-111 | each of sock, pid and gpg holds the value of the last line assigning its name (the pid through atoi), or keeps its old value when no line names it |
| Announcement.ApplyLinesSnoc | envoyd.c:127-135 | the last line is applied last |
| Announcement.ReadUpTo | envoyd.c:120 | a read returns a prefix of the pending bytes, no more than asked for, and everything when fewer are pending |
| Announcement.TerminatorOverrunsAsWritten | envoyd.c:120-124 | as written, an agent printing BUFSIZ bytes makes the NUL land at index BUFSIZ, one past the buffer |
| Announcement.ParseAgentData | envoyd.c:114-139 | returns -1 and changes nothing when the read fails; otherwise returns 0 and leaves the record the lines of the first BUFSIZ - 1 bytes make of it |
| Announcement.LoadBuffer | envoyd.c:120-124 | the buffer holds the bytes read, then a NUL |
| Announcement.WalkLines | envoyd.c:125-136 | the in-place walk applies exactly the complete lines of the buffer, in order |
| Announcement.TakeLine | envoyd.c:132 | storing a NUL over the newline cuts out the line and leaves the bytes after it as they were |
| Announcement.LinesStep | envoyd.c:128-135 | one step of the walk: the next line runs up to the newline strchr found |
| Announcement.WalkStep | envoyd.c:128-135 | applying the line found and walking on gives what walking from the line's start gives |
| Announcement.FindNewline | envoyd.c:128 | the array scan returns what strchr returns on the string the buffer holds |
| Announcement.ExportLineAssigns | envoyd.c:101-104 | an agent's `NAME=value; export NAME;` line assigns exactly its value to its name |
| Announcement.LinesOfUnlines | envoyd.c:127-135 | newline-terminated lines read back as themselves, and a trailing fragment without a newline adds nothing |
| Announcement.SshAgentAnnouncementParsed | envoyd.c:114-139 | ssh-agent's announcement leaves exactly the announced socket and pid in the record, and nothing else changes |
| Announcement.ExportLineApplied | envoyd.c:106-111 | an export line sets the field its name stands for, or nothing for an unknown name |
| Announcement.EchoLine | envoyd.c:101-102 | ssh-agent's closing `echo Agent pid N;` assigns nothing |
| Envoyd.FindAgent | envoyd.c:236-245 | returns the index of the first table entry whose argv[0] is the name, or INVALID_AGENT when there is none |
| Envoyd.StartAgent | envoyd.c:141-199 | the method computes AfterStart: the passwd, pipe and fork faults, the parse, the wait, and the pid cleared on a failed exit |
| Envoyd.StartAgentMarks | envoyd.c:148-190 | a started record is marked first_run, keeps its status and kind, and has pid 0 after a non-zero exit status |
| Envoyd.StartAgentRecordsAnnouncement | envoyd.c:141-199 | an ssh-agent that announces a socket and pid and exits 0 leaves exactly those in the record |
| Envoyd.Lookup | envoyd.c:320-325 | a node found has the peer's uid |
| Envoyd.LookupFirst | envoyd.c:320-325 | the node found is the first with that uid; none is found exactly when no node has it |
| Envoyd.LookupAt | envoyd.c:320-325 | the first node of a uid is the one the walk finds |
| Envoyd.ServeRejects | envoyd.c:315-318 | a non-root daemon refuses any other uid, with the registry unchanged and nothing written; anything written went to root's daemon or to its own user |
| Envoyd.AnswerRewritesOne | envoyd.c:343-347 | answering rewrites at most the peer's node and keeps its uid |
| Envoyd.RespawnRewritesOne | envoyd.c:340-347 | restarting an agent rewrites at most the peer's node |
| Envoyd.ServeRegistry | envoyd.c:320-347 | a miss prepends one node for the peer; a hit rewrites only the peer's node; every other node is left alone |
| Envoyd.ServeKeepsUidsUnique | envoyd.c:320-341 | serving a connection keeps at most one node per uid |
| Envoyd.ServeStartsIff | envoyd.c:327-341 | an agent is started exactly when the peer has no node, its node has no pid, or its agent is gone |
| Envoyd.ServeProbeFatal | envoyd.c:327-330 | a probe error other than "no such process" is fatal exactly when the peer's node has a pid to probe |
| Envoyd.RespawnNotProbe | envoyd.c:340 | starting an agent never fails for the probe's reason |
| Envoyd.ServeReplies | envoyd.c:343-347 | only a record with a pid is written; the registry keeps it with first_run cleared; a record without a pid is not written |
| Envoyd.AnswerReplies | envoyd.c:343-347 | what the answer writes and what it leaves in the peer's node |
| Envoyd.RespawnReplies | envoyd.c:340-347 | the same, after start_agent |
| Envoyd.ServeWriteFails | envoyd.c:327-346 | serving fails with WriteFailed exactly when the peer is authorized, the write fails, and there is a record with a pid to write: the live agent's on a hit whose probe says alive, or the one start_agent made of the node; a failed write otherwise sends nothing |
| Envoyd.SecondRequestNotFirstRun | envoyd.c:320-347 | once a live agent's record has been sent, the user's next request starts nothing and gets the same record with first_run cleared |
| Envoyd.FirstConnectionStartsAgent | envoyd.c:320-347 | a user's first connection starts ssh-agent: the reply holds the announced socket and pid with first_run set, and the registry gains one node holding them with first_run cleared |
| Envoyd.ServeMiss | envoyd.c:333-347 | a user without a node gets a fresh one at the head of the list, filled in by start_agent from an all-zero record |
| Envoyd.TermTargets | envoyd.c:74-79 | the sweep signals no more pids than there are nodes |
| Envoyd.TermTargetsOnce | envoyd.c:74-79 | the corrected sweep signals every positive pid once per node holding it, and nothing else |
| Envoyd.CleanupStepAsWritten | envoyd.c:74-79 | one step of the loop as written never lengthens the list |
| Envoyd.CleanupAsWrittenStalls | envoyd.c:75-76 | as written, a head node with pid <= 0 leaves the list as it was and signals nothing, so the loop never ends |
| Envoyd.StalledRegistryReachable | envoyd.c:189-190 | an agent exiting with a failure leaves its user's node with pid 0, so the stalled list arises |
| Envoyd.Daemon.constructor | envoyd.c:65-68 | the initial globals: no nodes, not socket-activated, ssh-agent selected |
| Envoyd.Daemon.SelectAgent | envoyd.c:282-287 | `-a` selects the named table entry, or fails with "unknown agent" and changes nothing when no entry has that name |
| Envoyd.Daemon.GetSocket | envoyd.c:201-234 | more than one inherited descriptor is fatal; exactly one is used and marks the daemon socket-activated; none means the daemon's own socket; the daemon's invariant is kept |
| Envoyd.Daemon.FindNode | envoyd.c:320-325 | the walk returns what Lookup specifies |
| Envoyd.Daemon.HandleConnection | envoyd.c:305-352 | one pass of the loop: the reply, whether an agent started, and the new registry are those of Serve |
| Envoyd.Daemon.Cleanup | envoyd.c:70-80 | the socket is closed, the list is used up, SIGTERM goes to each positive pid in list order, and the daemon's invariant is kept |
| Envoyd.Daemon.OnSignal | envoyd.c:82-91 | SIGINT or SIGTERM exits, after cleanup (socket closed, list emptied, every positive pid signalled) unless socket-activated; any other signal changes nothing; the daemon's invariant is kept |
| EnvoyExec.TrimLeftSpec | src/envoy-exec.c:78 | strspn skips exactly the leading blanks |
| EnvoyExec.TrimRightSpec | src/envoy-exec.c:80-83 | the backward walk drops exactly the trailing blanks |
| EnvoyExec.StripSpec | src/envoy-exec.c:75-87 | the result is the window of the input between the leading and the trailing blanks; everything cut off is blank; the window neither starts nor ends with a blank |
| EnvoyExec.StripEmpty | src/envoy-exec.c:75-87 | the result is empty exactly when the input is all blanks |
| EnvoyExec.StripIdempotent | src/envoy-exec.c:75-87 | stripping twice is stripping once |
| EnvoyExec.StripWindow | src/envoy-exec.c:75-87 | any window bounded by the first and last non-blank characters is the stripped string |
| EnvoyExec.StrStrip | src/envoy-exec.c:75-87 | in place: the new start and the NUL stored at the new end delimit the stripped string |
| EnvoyExec.CStrSpec | src/envoy-exec.c:107-126 | the text every scan of the mapped file sees holds no NUL |
| EnvoyExec.UpToHashSpec | src/envoy-exec.c:118 | the command is a prefix of its line with no '#' |
| EnvoyExec.ScriptCommandClean | src/envoy-exec.c:89-131 | a command found holds no newline, '#' or NUL |
| EnvoyExec.FirstCommandClean | src/envoy-exec.c:111-126 | a command found among clean lines holds no newline, '#' or NUL |
| EnvoyExec.ScanStart | src/envoy-exec.c:110 | the scan starts from the end of the `#!` line |
| EnvoyExec.SkipCountSpec | src/envoy-exec.c:112 | strspn(.., "#\t ") counts exactly the leading '#', tab and space characters |
| EnvoyExec.CommandLenLine | src/envoy-exec.c:118 | strcspn(.., "\n#") on a line gives the line up to its first '#' |
| EnvoyExec.ScanStep | src/envoy-exec.c:111-125 | one turn: at the end of the text no command; at a newline the scan goes on; otherwise the command is the line up to a newline or '#' |
| EnvoyExec.ScanEnd | src/envoy-exec.c:113-114 | only '#', tab and space characters left: no command |
| EnvoyExec.ScanBlank | src/envoy-exec.c:115-116 | a line of only '#', tab and space characters is passed over |
| EnvoyExec.LineAfterSkip | src/envoy-exec.c:112-118 | past the skipped characters the line still goes on, and ends at the first newline |
| EnvoyExec.ScanCommand | src/envoy-exec.c:118-124 | the first line with something after the skipped characters gives the command, cut at a newline or '#' |
| EnvoyExec.ScanFromStep | src/envoy-exec.c:111-125 | the loop function takes one turn exactly as the C loop does |
| EnvoyExec.ScanFromTail | src/envoy-exec.c:111-126 | the loop finds the command of the first line after the `#!` line that is not only '#', tab and space |
| EnvoyExec.ScriptCommandScan | src/envoy-exec.c:107-130 | the script's command is nothing without a `#!`, and otherwise the stripped result of the loop |
| EnvoyExec.StrnDup | src/envoy-exec.c:123 | a fresh NUL-terminated copy |
| EnvoyExec.ScanTurn | src/envoy-exec.c:111-125 | one turn over the text: the walk moves forward; when not done it stands on a newline with the same command still to find; when done it holds the command |
| EnvoyExec.WalkLines | src/envoy-exec.c:111-126 | the loop returns the command the loop function specifies, free of NUL |
| EnvoyExec.ExtractBinary | src/envoy-exec.c:89-131 | a missing file gives nothing; an open or stat failure is fatal; a file mmap refuses, an empty one included, gives nothing (the corrected behaviour, see Findings); otherwise the result is the script's stripped command |
| EnvoyExec.UnmappedScriptAsWritten | src/envoy-exec.c:104-107 | as written, extract_binary differs from the corrected one exactly on the files mmap refuses, where it dies reading through MAP_FAILED; an empty script is one |
| EnvoyExec.SafeExecv | src/envoy-exec.c:65-71 | the process is replaced exactly when the path is runnable and does not resolve to the wrapper's own executable, and then with the argv given |
| EnvoyExec.NonEmptyAppend | src/envoy-exec.c:139-140 | the segments of two runs of fields are the segments of each |
| EnvoyExec.NonEmptySpec | src/envoy-exec.c:139-140 | strtok_r hands out only non-empty fields of PATH |
| EnvoyExec.SegmentsSpec | src/envoy-exec.c:139-140 | every segment is non-empty and holds no ':' |
| EnvoyExec.Candidates | src/envoy-exec.c:141 | one candidate path per segment |
| EnvoyExec.FirstLaunchSpec | src/envoy-exec.c:140-146 | the launch is the first candidate that safe_execv runs, and there is none exactly when every candidate returns |
| EnvoyExec.SegmentsStep | src/envoy-exec.c:140 | one strtok_r step takes the next field off PATH |
| EnvoyExec.FirstLaunchSegments | src/envoy-exec.c:140-144 | trying one segment's candidate, then the rest in order |
| EnvoyExec.TrySegment | src/envoy-exec.c:140-144 | one step of the PATH walk: it launches what the whole walk would launch, or leaves the walk of the rest to find the same launch |
| EnvoyExec.ExecFromPath | src/envoy-exec.c:133-147 | the launch of the first PATH candidate that runs, or "command not found", also when PATH is unset |
| EnvoyExec.Resolve | src/envoy-exec.c:154-164 | resolution fails only when extract_binary dies or /proc/self/exe cannot be resolved |
| EnvoyExec.UnmappedFallsBack | src/envoy-exec.c:154-164 | a file at argv[0] that cannot be mapped is not taken for a script: argv[0] is the command, with /proc/self/exe standing for the wrapper |
| EnvoyExec.NewArgvShape | src/envoy-exec.c:166-169 | new_argv is the command, then the wrapper's own arguments after argv[0], then NULL |
| EnvoyExec.WrapperNeverExecsItself | src/envoy-exec.c:149-177 | whatever exec_wrapper launches is runnable, does not resolve to the wrapper's own path, and gets new_argv |
| EnvoyExec.WrapperSearchesPath | src/envoy-exec.c:171-176 | a command that is not a path, or a path whose exec returned, is looked up in PATH: the launch is the first candidate that runs, and the wrapper fails exactly when none does |
| EnvoyExec.ExecWrapper | src/envoy-exec.c:149-177 | filling new_argv in the array and trying the path then PATH gives the launch WrapperLaunch specifies |
| EnvoyExec.AgentVars | src/envoy-exec.c:60-62 | SSH_AUTH_SOCK is the socket; GPG_AGENT_INFO is set exactly when the record names a gpg socket, and otherwise kept as it was; no other variable changes |
| EnvoyExec.Environment.SourceAgentEnv | src/envoy-exec.c:35-63 | a failed fetch warns; a failed or refused agent warns and changes nothing; otherwise a gpg-agent is told the terminal and the variables are exported |
| EnvoyExec.MainArgs | src/envoy-exec.c:201-229 | under the name envoy-exec the arguments kept are exactly argv shifted by optind, and nothing left to run is a usage error; under any other name argv stays as it is |
| EnvoyExec.RunNeverExecsItself | src/envoy-exec.c:190-233 | whatever main ends up executing is runnable and is not the wrapper |
| Envoy.KeyPathSpec | envoy.c:43-56 | the key path ends with the fragment; it is the fragment when that exists, and `home/.ssh/fragment` otherwise |
| Envoy.KeyPathsAt | envoy.c:72-73 | the i-th key path is the path of the i-th operand |
| Envoy.AddKeysArgvShape | envoy.c:69-75 | ssh-add gets its own path, "--", one path per key in order, then NULL |
| Envoy.AddKeys | envoy.c:58-79 | the array filled and executed is that argument vector; a missing passwd entry or a failing execv is fatal |
| Envoy.SshArgvShape | envoy.c:84-90 | ssh gets its own path as argv[0], envoy's arguments after the first, then NULL |
| Envoy.ExecSsh | envoy.c:81-94 | the array filled and executed is that vector; with argc 0 the NULL overwrites argv[0] and execv fails |
| Envoy.FramedSpec | envoy.c:102-106 | with the newline kept inside the buffer, a line that fits goes out as itself plus one newline; a longer one is cut so the frame stays under BUFSIZ |
| Envoy.FrameOverrunAsWritten | envoy.c:103-106 | as written, a line of BUFSIZ characters stores its newline outside buf, and one of BUFSIZ - 1 goes out with a NUL inside |
| Envoy.AckedIffOk | envoy.c:110-113 | for a frame whose third byte is not a newline, the status is 1 exactly when the reply starts with "OK\n"; a shorter reply never counts |
| Envoy.FramesAppend | envoy.c:122-139 | the frames of `a + b` are those of `a`, then those of `b` |
| Envoy.Chain | envoy.c:122-139 | sending `a`, then `b`, writes and reads what sending `a + b` does |
| Envoy.ControlLinesEnds | envoy.c:116-140 | the session starts with RESET, has one line per option present, and ends with UPDATESTARTUPTTY exactly when it completes |
| Envoy.ControlLinesTerminal | envoy.c:124-128 | ttyname follows RESET when there is a terminal, then ttytype when $TERM is set |
| Envoy.ControlLinesDisplay | envoy.c:130-137 | with $DISPLAY set and a home directory, display and then xauthority follow the terminal options |
| Envoy.ControlLinesWhole | envoy.c:122-139 | every control line is at least five characters long and its third is not a newline |
| Envoy.ControlLinesAcked | envoy.c:113 | for every control line, the reply counts as an acknowledgement exactly when it starts "OK\n" |
| Envoy.ControlPathSpec | envoy.c:155-159 | the control socket path is the info string up to, and not including, its first ':' |
| Envoy.GreetedIffOk | envoy.c:164-169 | the greeting is accepted exactly when it starts with "OK" |
| Envoy.FillFrame | envoy.c:103-106 | the buffer holds the frame, then zeros |
| Envoy.ReadInto | envoy.c:110 | the reply overwrites the start of the buffer and the rest stays |
| Envoy.AgentSocket.Read | envoy.c:110 | a read consumes the next reply, or returns nothing at the end of the stream |
| Envoy.AgentSocket.SendMessage | envoy.c:96-114 | writes the frame, consumes one reply, returns -1 when the write or the read fails and otherwise whether the reply acknowledged |
| Envoy.AgentSocket.SendOption | envoy.c:124-128 | an option line goes out only when its value is there |
| Envoy.AgentSocket.SendMessages | envoy.c:116-140 | writes the control lines in order and consumes one reply each; fails exactly when $DISPLAY is set without a passwd entry |
| Envoy.AgentSocket.UpdateTty | envoy.c:142-174 | a wrong socket, a failed read and a greeting without "OK" are fatal before anything is written; otherwise the control lines go out |
| Envoy.ParseExportRoundTrip | envoy.c:176-183 | a shell reads an export line back as the name and value it was printed from |
| Envoy.ExportsReadBack | envoy.c:176-183 | every printed line reads back as its assignment |
| Envoy.PrintEnvReadBack | envoy.c:176-183 | GPG_AGENT_INFO is printed exactly for a gpg-agent, then the socket and the pid; each line reads back, and the pid reads back as the number the daemon reported |
| Envoy.PidPlain | envoy.c:182 | `%d` never prints a quote |
| Envoy.GetAgent | envoy.c:211-252 | a failed or refused agent is fatal; for a stopped one the kind asked for is written, and the record read again, a failed write being fatal; a started or running one is kept and nothing is written; the count is the first read's |
| Envoy.ParseOptionsSpec | envoy.c:297-334 | when the loop runs through, the last action option decides the action (ADD when there is none), and the environment is sourced unless -k or -K was given |
| Envoy.ParseOptionsKind | envoy.c:326-330 | when the loop runs through, the agent kind is the one the last -t named, or the starting kind when there is no -t |
| Envoy.ReadOptions | envoy.c:297-334 | the loop computes ParseOptions from the defaults ADD, sourcing on, the default agent |
| Envoy.ActTable | envoy.c:342-369 | plain envoy adds keys only to an ssh-agent that is not running, and otherwise acts as -a; -k sends SIGHUP to a gpg-agent and fails for any other; -K sends SIGTERM |
| Envoy.ActEffects | envoy.c:342-369 | every action signals only the reported pid, with SIGTERM, or with SIGHUP for a gpg-agent, and executes nothing but ssh-add |
| Envoy.ActLeavesSock | envoy.c:342-369 | no action exports the socket, and only printing talks to gpg-agent |
| Envoy.ClientSourcing | envoy.c:336-341 | -k and -K leave the environment alone; otherwise the socket is exported before the action, after the kind was requested from a stopped daemon and a gpg-agent was told the terminal |
| Envoy.ClientRequestsKind | envoy.c:211-240 | a kind is written to the daemon only as the first step, exactly when the daemon reports a stopped agent and the write succeeds, and it is the kind of the settings |
| Envoy.RequestsChosenAgent | envoy.c:326-336 | the kind asked of a stopped daemon is the one the last -t named, or AGENT_DEFAULT without -t |
| Envoy.SshStepsSpec | envoy.c:289-295 | invoked as ssh, envoy asks a stopped daemon for AGENT_DEFAULT only, and runs only the real ssh with its arguments, as its last step, right after exporting the socket |
| Envoy.ClientRefuses | envoy.c:336-337 | a failed or refused agent, a failed write of the kind, or an empty answer stops envoy: nothing is exported, printed, signalled or executed |

## Left out

- `common.h` is not part of this model. `agent_data_t` is modelled on its
  use in the three programs. The capacity of `sock` and `gpg` is taken to
  be PATH_MAX (4096), and `BUFSIZ` glibc's 8192.
- `set_socket_path`, `init_envoy_socket`, `joinpath`, `putenvf`,
  `lookup_agent`, `envoy_get_agent` and `gpg_agent_connection` are not part
  of this model. `joinpath` is a parameter of the host. The other results
  enter as values: the daemon's record, and the option's agent.
- getopt_long is not modelled. The options arrive as the sequence it
  would return, and `optind` as a number.
- `usage` and `-v` only print and exit. They are modelled as the
  `ShowUsage`/`ShowVersion` outcomes and the `Usage` fault.
- The sockets, the pipe, fork, wait, kill, mmap and the passwd database
  are not modelled. Their outcomes are parameters: `Connection`, `Child`,
  `Probe`, `Host`, `Client`, the replies of an `AgentSocket`.
- Output to stdout and stderr is not modelled, apart from what
  `print_env` prints and the count of warnings `source_agent_env` makes.
- Concurrency: envoyd serves one connection at a time. The signal handler
  is modelled as a method called between connections.
- A read that returns fewer bytes than are pending is modelled only as
  "at most the count asked for". The split of one answer over several
  reads is not.
- `read_agent` retrying on EAGAIN, and the record's bytes on the wire,
  are not modelled. A read hands over a whole `AgentData` value or a count.
- Buffers the C code leaves uninitialised are modelled as zeros. The
  record `get_agent` inspects after a failed read is whatever the model is
  given.
- The 108-byte `sun_path` of the gpg control socket is not modelled. The
  connection succeeds when the path before ':' matches the socket.
- Envoy.GetAgent: the record read after asking a stopped daemon is used
  without looking at its status, as the code does.
- `main` in envoy tests `get_agent(..) == 0` on a `size_t`. A failed read
  (-1) therefore passes the test, and the model keeps that.
- The branch of `extract_binary` for a line whose first kept character is
  '#' (src/envoy-exec.c:119-121) cannot be taken: strspn has just skipped
  every '#'. The model has no such branch.
- EnvoyExec.ExecFromPath: an unset PATH is modelled as "command not
  found". In C, strdup(NULL) is undefined.
- EnvoyExec.Resolve, EnvoyExec.MainArgs: argv[0] is assumed to exist
  (`|argv| >= 1`), as every exec'd process has one.
- Envoy.PrintEnvReadBack: the read-back holds only while the socket
  paths hold no single quote. print_env does not escape quotes.
- Announcement.ApplyLine: the unchecked strcpy into `sock`/`gpg` is
  modelled as a copy of the whole value. Announcement.ApplyLinesFits
  states when it stays within PATH_MAX. An overflow is undefined behaviour
  in C and is not modelled.
- What envoyd does, as the model has it:
  - envoyd reads the agent's output with one read, not until end of
    stream (envoyd.c:120). That read asks for BUFSIZ bytes; the model uses
    the corrected size BUFSIZ - 1 (see Findings);
  - envoyd never reads an agent kind from the client, and never sets the
    status field of the record (envoyd.c:305-349). The kind envoy's
    `get_agent` writes to a stopped daemon is recorded on the client side
    only (`Envoy.GetAgent`);
  - a failing write to the client is fatal (envoyd.c:344-345);
  - values are copied with an unchecked strcpy (envoyd.c:106-111).
- `AGENT_DEFAULT` is defined in `common.h`, which is not part of this
  model. It is the parameter `defaultKind` of `Envoy.ReadOptions`,
  `Envoy.SshSteps` and `Envoy.RequestsChosenAgent`.
- EnvoyExec.ExtractBinary: the end of the mapped bytes is read as a NUL.
  That holds where the kernel zero-fills the rest of the last page. A
  file whose size is an exact multiple of the page size has no zero byte
  after it, so the scans at src/envoy-exec.c:107-118 can read past the
  mapping. The model does not capture that read.
- CText.Atoi: atoi on digits whose value does not fit an `int` is
  undefined in C. The model reads the whole digit run as an unbounded
  integer. CText.AtoiFormatInt therefore holds for every integer, not only
  for the 32-bit range.
- CText.FormatInt: `%d` prints a C `int`. The model prints any integer,
  and does not bound the pid to the 32-bit range.
- The `-h`/`-v` options of envoyd and envoy-exec, and the `-t` option of
  envoy-exec, only choose between printing and exiting or an agent kind.
  Their agent kind is the one given to `source_agent_env`.

## Findings

| source | as written | input that shows it | evidently intended | confidence | as-written member | corrected member |
|---|---|---|---|---|---|---|
| envoyd.c:74-79 | `cleanup` does `continue` on a node with pid <= 0 without moving to the next node | a registry whose head node has pid 0, which an agent exiting with a failure leaves behind (`Envoyd.StalledRegistryReachable`) | skip the node and go on: every positive pid gets SIGTERM once | high, not executed | Envoyd.CleanupAsWrittenStalls | Envoyd.Daemon.Cleanup |
| envoyd.c:120-124 | `read(fd, b, sizeof(b))` can return BUFSIZ, and then `b[bytes_r] = '\0'` writes one past the buffer | an agent that prints BUFSIZ (8192) bytes or more | read at most BUFSIZ - 1 bytes so the NUL fits | high, not executed | Announcement.TerminatorOverrunsAsWritten | Announcement.ParseAgentData |
| envoy.c:103-106 | `nbytes` is vsnprintf's return value, the length the whole line would have had, and `buf[nbytes++] = '\n'` uses it as an index | a control line of BUFSIZ characters, e.g. a long $DISPLAY or home directory, stores outside buf; one of BUFSIZ - 1 sends a NUL inside the frame | clamp the index to what vsnprintf kept, so the newline follows the kept text | high, not executed | Envoy.FrameOverrunAsWritten | Envoy.AgentSocket.SendMessage |
| src/envoy-exec.c:104-107 | the result of `mmap` is never compared with MAP_FAILED before `memblock[0]` is read, although the `error` label (:129) expects MAP_FAILED to reach it | an empty script (mmap of length 0 fails with EINVAL), or argv[0] naming a directory (open succeeds, mmap fails) | send a failed mapping to `error`, so extract_binary returns NULL and argv[0] is run as a plain command | high, not executed | EnvoyExec.UnmappedScriptAsWritten | EnvoyExec.ExtractBinary |
