# ATHENA: verified models of its sandbox, session and protocol logic

ATHENA runs untrusted document sessions inside a bundled copy of minijail, serves them through a web
server, and talks to remote clients over AUDMAP. This project models the parts of that code whose
correctness is hardest to see, and proves what they promise for every input, every run or every
interleaving.

**The seccomp policy compiler** (`BpfMachine`, `BpfEmit`, `BpfResolve`, `FilterBlocks`, `Policy`,
`PolicyCode`, `PolicyLabels`, `PolicyValid`, `PolicyCompiler`, `PolicyTable`, `PolicyAccept`,
`PolicyNumbers`, `PolicyBuilder`, `PolicyFile`). A policy is turned into a classic BPF program. `Policy` gives policies
a meaning over `struct seccomp_data`, and `PolicyNumbers` says in the kernel's numbers what is returned; `BpfMachine` gives a meaning to labelled code and to the kernel's programs, the
latter both on a given system call and along every path of the control-flow graph. The value-level
compiler is proved correct against these, and the code that builds linked blocks, grows the label
table, fills the final buffer and patches jumps in place is proved equal to the value-level compiler.
Main results: `PolicyFile.CompilePolicy`, `PolicyCompiler.CompilerCorrect`,
`PolicyAccept.AcceptedExactly`, `PolicyAccept.ReadsOutsideExactly`, `BpfResolve.ResolutionRefines`.

**Descriptor remapping** (`FdRemap`): the sequential dup2 calls of a launched child realise the
parallel move it was asked for. **Marshalling** (`Marshal`): one serializer counts and writes, and
reading back replays the API. **Constant expressions** (`Constants`): text printed from any expression
tree parses to the word with exactly the bits it sets.

**Web sessions** (`WebSessions`, `WebProgress`): creators, start workers, stop workers and the housekeeper
interleave in every possible way; what no interleaving can do, what every start comes to, and runs in which
creation, start and stop succeed. **The AUDMAP client** (`ReplSession`, `ReplLines`): a session object driven
by user lines and server frames, checked against a life cycle for tickets, operations and progress notices;
every frame is traced back to the line that was typed and the handle that was chosen. **TURN URIs** (`IceUri`,
`IceForms`) and **download paths** (`DownloadPath`, `PathWalk`): parsers and the texts they accept. **The macro
catalog** (`MacroCatalog`, `MacroTrees`): a worklist computes the least set of names that holds what the
documents' trees declare.

What the proofs brought out about the code as it stands:

- The argument index of a policy atom is not checked. The kernel accepts the program exactly when every
  index, as a word offset, lies inside `struct seccomp_data`; `arg-1`, for one, reads the instruction
  pointer (`BpfEmit.IndicesInData`, `PolicyValid.ProgramValid`).
- `extend_filter_block_list` keeps the list well formed exactly when the list it adds has at least two
  blocks; every compiled rule has (`FilterBlocks.Extend`, `PolicyBuilder.SectionLong`).
- Leave for duplicate system calls covers plain allows only: two rules with argument filters or returns
  for one system call place the same label twice and are not accepted (`PolicyAccept.TwoSectionsRefused`).
- The entry label of a rule is not checked when the label table is full, and jump resolution then reads
  the table at index 0xffffffff. `PolicyAccept.ReadsOutsideExactly` says for which policies, and
  `PolicyAccept.OverflowHappens` gives one.
- The comparison helpers cut outer jump offsets to a byte; `BpfEmit.ExactOffsets` says which are still
  honoured. The compiler uses 0 and 1 only.
- A marshalled jail can be read back exactly when no Landlock mask and not `fs_rules_fd` is zero
  (`Marshal.RoundTrip`).
- A pipe is lost in remapping exactly when its number is the source of a move and the target of none
  (`FdRemap.Launch.Remap`, `FdRemap.LosePipe`).
- The housekeeper erases by token without looking at the session it removes. The session limit covers all
  sessions exactly until such an erasure meets one that is starting or running
  (`WebSessions.ListedExactly`, `WebSessions.OrphanExceedsLimit`); with a token drawn twice that can happen
  (`WebSessions.ReusedTokenBreaksLimit`).
- An answer that names operation 0 while none is pending closes a progress notice that is not its own
  (`ReplSession.NoticesExactly`, `ReplSession.UnnumberedAnswerClosesTwice`), and a resolution in which every
  handle is some other's parent leaves a target that is no handle (`ReplSession.ConductExactly`).

`dafny verify dfyconfig.toml` checks everything.

## Model

| member | source | states |
|---|---|---|
| BpfMachine.ExecConcat | 3rdparty/minijail/bpf.c:301-349 | labelled code composes: running two pieces in sequence is running the first and resuming the second where the first leaves, by falling out, skipping or jumping to a label |
| BpfMachine.StepsBound | 3rdparty/minijail/bpf.c:301-349 | every run of a program with forward jumps takes at most as many steps as there are instructions |
| BpfEmit.ArgValueIsArgument | 3rdparty/minijail/bpf.c:51-60 | the two words loaded for an index from 0 to 5 are that argument of the system call |
| BpfEmit.IndicesInData | 3rdparty/minijail/bpf.c:51-60 | exactly which other indices lie in the data, and what they read |
| BpfEmit.ExactOffsets | 3rdparty/minijail/bpf.c:76-190 | for each split comparison, exactly which outer offsets are honoured for all constants and arguments: equal ones, and those that fit a byte after the skip is added |
| BpfEmit.Comp64Paths | 3rdparty/minijail/bpf.c:76-190 | along any path, and for all outer offsets, a split comparison leaves by jt or jf and reads only the scratch cells the loader wrote |
| BpfEmit.ArgCompExact | 3rdparty/minijail/bpf.c:228-299 | for all eight operators the block falls through exactly when the 64-bit relation holds and jumps to the failure label otherwise |
| BpfEmit.ArgCompOutsideData | 3rdparty/minijail/bpf.c:51-60 | with an index outside the data the block breaks the machine, whatever the operator |
| BpfEmit.ArgCompLength | 3rdparty/minijail/bpf.c:207-226 | the block has exactly the length bpf_arg_comp_len announces |
| BpfEmit.WriteLoadArg | 3rdparty/minijail/bpf.c:51-60 | the loader's four instructions are written at the cursor and nothing else changes |
| BpfEmit.WriteComp64 | 3rdparty/minijail/bpf.c:76-205 | the comparison is written at the cursor, its length returned, and nothing else changes |
| BpfEmit.BpfArgComp | 3rdparty/minijail/bpf.c:228-299 | the allocated buffer has the announced length and is filled exactly with the comparison block |
| BpfResolve.LookupStable | 3rdparty/minijail/bpf.c:352-383 | once a label has an id, every later request returns it and leaves the table alone |
| BpfResolve.Labels.LabelId | 3rdparty/minijail/bpf.c:352-383 | the table and the id are those of the lookup function; -1 exactly when the table is full and the label is new |
| BpfResolve.ResolveJumps | 3rdparty/minijail/bpf.c:301-349 | one backward pass over the buffer accepts exactly the code whose labels are known and placed once and whose jumps name later labels, and leaves the patched program; it reads outside the label table exactly when it meets a label that is not in it while everything behind is in order |
| BpfResolve.ResolutionRefines | 3rdparty/minijail/bpf.c:301-349 | the patched program and the labelled one agree from every position, state, input and path |
| BpfResolve.JumpsLandOnTheirLabel | 3rdparty/minijail/bpf.c:317-345 | each patched jump lands on the only place of its label, after the jump |
| FilterBlocks.Append | 3rdparty/minijail/syscall_filter.c:79-104 | appending to a list that represents blocks gives one that represents them and the new block, with its tail and total length right |
| FilterBlocks.Extend | 3rdparty/minijail/syscall_filter.c:106-117 | extending links both lists; the result is a well-formed list exactly when the added one has at least two blocks |
| FilterBlocks.ExtendList | 3rdparty/minijail/syscall_filter.c:106-117 | for such lists the result represents the concatenation |
| FilterBlocks.Flatten | 3rdparty/minijail/syscall_filter.c:891-907 | the blocks are copied in order from the index on and nothing else is written; it fails exactly when they do not fit |
| PolicyCode.AtomBlocksRun | 3rdparty/minijail/syscall_filter.c:450-463 | the code of a conjunction falls through exactly when all its atoms hold and leaves for the group's end label otherwise |
| PolicyCode.GroupBlocksRun | 3rdparty/minijail/syscall_filter.c:450-478 | the code of a disjunction leaves for the success label exactly when some conjunction holds |
| PolicyCode.SectionRuns | 3rdparty/minijail/syscall_filter.c:364-521 | the code of a rule always returns, and returns the rule's decision, whose number BodyWord gives |
| PolicyCode.TableRuns | 3rdparty/minijail/bpf.c:26-43 | the jump table leaves for the first entry with the system call's number |
| PolicyCode.HeadRuns | 3rdparty/minijail/syscall_filter.c:785-847 | a foreign architecture is killed, a listed call goes to its first entry, any other gets the default action |
| PolicyCode.SectionReached | 3rdparty/minijail/syscall_filter.c:706-744 | jumping to a rule's label from the table runs that rule's section and no other |
| PolicyLabels.ForwardResolvable | 3rdparty/minijail/bpf.c:301-349 | code whose jumps all go forward is accepted exactly when it is short enough and its labels are known and placed once |
| PolicyLabels.FilterSectionLabels | 3rdparty/minijail/syscall_filter.c:364-521 | a filter section places its entry, group end and success labels and nothing else, and jumps only forward within itself |
| PolicyLabels.ForwardStrays | 3rdparty/minijail/bpf.c:335-345 | for code whose jumps all go forward, the table is left exactly when some label is not in it and the ids behind it are known and distinct |
| PolicyLabels.ProgramLabels | 3rdparty/minijail/syscall_filter.c:785-881 | in the whole program every jump has its label later on |
| PolicyValid.ProgramDecides | 3rdparty/minijail/syscall_filter.c:785-881 | the resolved program decides every system call as the rules do and returns on every path |
| PolicyValid.ProgramValid | 3rdparty/minijail/syscall_filter.c:785-881 | the kernel accepts the resolved program exactly when every argument index lies in the data |
| PolicyCompiler.LinesCompiled | 3rdparty/minijail/syscall_filter.c:573-759 | lines that compile add one entry for each known rule, in order, each implementing its rule |
| PolicyCompiler.RedefinedFails | 3rdparty/minijail/syscall_filter.c:696-704 | a duplicate already met fails the file whatever follows |
| PolicyCompiler.NestedIncludeFails | 3rdparty/minijail/syscall_filter.c:523-571 | a file included at any level below the top that itself includes is refused |
| PolicyCompiler.IncludeIsSplicing | 3rdparty/minijail/syscall_filter.c:523-571 | a policy with includes compiles to the same program, or is refused alike, as the policy with the included lines in place |
| PolicyAccept.NoDuplicates | 3rdparty/minijail/syscall_filter.c:179-195 | unless permitted, lines that compile define no system call twice, and none defined before |
| PolicyCompiler.CompilerCorrect | 3rdparty/minijail/syscall_filter.c:761-889 | an accepted policy's program is valid exactly when its indices lie in the data, and then decides every call as the policy says, returns on every path and runs in at most its length |
| PolicyTable.SectionAsk | 3rdparty/minijail/syscall_filter.c:364-521 | a section compiles exactly when its body is well formed and the label table has room for its requests, and then leaves that table |
| PolicyTable.TiedEntry | 3rdparty/minijail/bpf.c:352-383 | an entry label gets an id that repeats an earlier one exactly when its text was stored before, and none exactly when the table is full without it |
| PolicyTable.TiedInner | 3rdparty/minijail/syscall_filter.c:218-230 | the same for the labels inside a section, which all have a place |
| PolicyAccept.LinesCompile | 3rdparty/minijail/syscall_filter.c:573-759 | lines without includes compile exactly when they are well formed, without forbidden duplicates, and the label table has room for the requests that are checked |
| PolicyAccept.LinesTied | 3rdparty/minijail/syscall_filter.c:706-744 | the labels of lines that compile carry the texts, and have the places in the table, that the policy foretells |
| PolicyAccept.ProgramExactly | 3rdparty/minijail/syscall_filter.c:849-881 | when jump resolution accepts the program, and when it reads outside the table, in terms of label texts and program length |
| PolicyAccept.AcceptedExactly | 3rdparty/minijail/syscall_filter.c:761-889 | which policies are accepted, both ways, as a condition on the policy alone |
| PolicyAccept.ReadsOutsideExactly | 3rdparty/minijail/bpf.c:335-345 | which policies make jump resolution read outside the label table, both ways, as a condition on the policy alone |
| PolicyAccept.OverflowHappens | 3rdparty/minijail/bpf.c:335-345 | a policy of 513 rules that return an errno does, within every other limit |
| PolicyAccept.TwoSectionsRefused | 3rdparty/minijail/syscall_filter.c:573-759 | two rules with sections for one system call are not accepted even with leave for duplicates |
| PolicyNumbers.BodyAccepted | 3rdparty/minijail/syscall_filter.c:322-362 | a rule is refused exactly for a malformed atom, a clause that is no return, a bare return under the log action, a value that is no constant, or one whose low 32 bits are all set |
| PolicyNumbers.BodyWord | 3rdparty/minijail/bpf.h:170-187 | the number one rule returns: 0x7fff0000 when it allows or a disjunct holds, otherwise by its clause or the action |
| PolicyNumbers.VerdictReturns | 3rdparty/minijail/syscall_filter.c:785-847 | the decision as a number, from the lines: 0 on a foreign architecture, 0x7fff0000 for the allowlists, otherwise by the first line for the number, otherwise the default action |
| PolicyNumbers.AcceptedReturns | 3rdparty/minijail/syscall_filter.c:322-362 | every accepted program halts with that number: upper half 5 and lower half the low 16 bits of the value for `return VALUE`, and 0, 0x80000000, 0x30000 or 0x7ffc0000 by action for a bare return, a filter without a clause and the default |
| PolicyNumbers.IncludesHonoured | 3rdparty/minijail/syscall_filter.c:523-571 | a policy can be spliced exactly when every include is a path from the root or the current directory to a known file without includes |
| PolicyBuilder.GetLabelId | 3rdparty/minijail/syscall_filter.c:210-216 | the label's id, or death when the table is full |
| PolicyBuilder.BuildAtom | 3rdparty/minijail/syscall_filter.c:237-320 | the atom's block is appended to the list, or the atom refused, as the value-level compiler says |
| PolicyBuilder.BuildGroups | 3rdparty/minijail/syscall_filter.c:450-478 | the loops over groups and atoms append the blocks of the whole disjunction |
| PolicyBuilder.BuildSection | 3rdparty/minijail/syscall_filter.c:364-521 | a fresh list holds the section the value-level compiler defines |
| PolicyBuilder.SectionLong | 3rdparty/minijail/syscall_filter.c:364-521 | every compiled section has at least two blocks |
| PolicyFile.FindSyscall | 3rdparty/minijail/util.c:204-219 | the first entry with that name, all entries up to it having numbers, or -1 exactly when there is none |
| PolicyFile.Compilation.Mark | 3rdparty/minijail/syscall_filter.c:179-195 | the system call is marked and reported new exactly when it was not marked |
| PolicyFile.Compilation.AddSection | 3rdparty/minijail/syscall_filter.c:739-743 | the section's blocks join those of the earlier sections, the jump table is untouched |
| PolicyFile.Compilation.CompileFile | 3rdparty/minijail/syscall_filter.c:573-759 | the lists, the label table and the marks end up as the value-level compiler says, or the same failure is reported |
| PolicyFile.Compilation.AllowSelected | 3rdparty/minijail/syscall_filter.c:197-208 | one allow entry for each name, in order, joins the jump table |
| PolicyFile.Compilation.Assemble | 3rdparty/minijail/syscall_filter.c:849-872 | the buffer is filled exactly with both lists, unless they exceed the limit |
| PolicyFile.CompilePolicy | 3rdparty/minijail/syscall_filter.c:761-889 | the whole compilation: accepted exactly when acceptable, outside the table exactly when overflowing, correct as stated for CompilerCorrect, and returning the numbers stated for AcceptedReturns |
| FdRemap.Launch.IsPreservedChildFd | 3rdparty/minijail/libminijail.c:3244-3254 | whether the descriptor is among the first targets |
| FdRemap.Launch.FindUnused | 3rdparty/minijail/libminijail.c:3268-3278 | the highest descriptor below the bound that is no target and not open; none exactly when there is none |
| FdRemap.Launch.EnsureNoConflict | 3rdparty/minijail/libminijail.c:3257-3294 | a source among the first targets moves to a descriptor that was not open, nothing open is overwritten |
| FdRemap.Launch.PrepareOne | 3rdparty/minijail/libminijail.c:3303-3313 | one turn of the loop keeps the state of preparation, and takes a free descriptor exactly when the mapping needs a temporary |
| FdRemap.Launch.Prepare | 3rdparty/minijail/libminijail.c:3300-3315 | afterwards no source is an earlier move's target, each refers to its original file and the targets are distinct; how many free descriptors were taken; why it may die or fail |
| FdRemap.Launch.AvoidPipes | 3rdparty/minijail/libminijail.c:3333-3353 | no pipe has a target's number and each refers to its file |
| FdRemap.Launch.Redirect | 3rdparty/minijail/libminijail.c:3361-3389 | each target has its source's file and survives exec, everything else is unchanged |
| FdRemap.Launch.CloseParents | 3rdparty/minijail/libminijail.c:3391-3401 | exactly the sources that are no targets are closed |
| FdRemap.Launch.Remap | 3rdparty/minijail/libminijail.c:3244-3403 | every target gets the file its original source had, whatever cycles and overlaps there are; the rest of the table, and when a pipe survives, exactly; a well-posed request succeeds exactly when there are free descriptors for its temporaries, and dies otherwise |
| FdRemap.LosePipe | 3rdparty/minijail/libminijail.c:3395-3401 | a run that succeeds and leaves the launcher without one of its pipes |
| Marshal.LERoundTrip | 3rdparty/minijail/libminijail.c:1681-1718 | a number's bytes give the number back |
| Marshal.LittleEndian | 3rdparty/minijail/libminijail.c:1681-1718 | the least significant byte comes first |
| Marshal.AddMountNormalizes | 3rdparty/minijail/libminijail.c:1200-1270 | a stored mount is normal, and adding a normal mount again stores it unchanged |
| Marshal.MountStored | 3rdparty/minijail/libminijail.c:1200-1270 | refused exactly when the destination does not start with a slash; otherwise source, destination and type are stored as given, nosuid, nodev and noexec when no flags are, a mode and a size for a tmpfs without options, behind all earlier mounts, and a mount namespace is forced unless one is entered |
| Marshal.RuleStored | 3rdparty/minijail/libminijail.c:416-453 | the rule is appended as given, the earlier ones stay, and only the first sets the descriptor |
| Marshal.AddMountKeepsStored | 3rdparty/minijail/libminijail.c:1200-1270 | adding a mount through the API keeps the jail fit for the round trip |
| Marshal.AddRuleKeepsStored | 3rdparty/minijail/libminijail.c:416-453 | adding a rule does too, as long as the mask and the descriptor are not zero |
| Marshal.MarshalState.Append | 3rdparty/minijail/libminijail.c:1641-1654 | the stream grows by the bytes; what fits is written, the whole length counted, nothing else touched |
| Marshal.MarshalState.AppendJail | 3rdparty/minijail/libminijail.c:1681-1718 | the stream grows by the jail's byte string |
| Marshal.Size | 3rdparty/minijail/libminijail.c:1720-1726 | the length of the jail's byte string |
| Marshal.MarshalInto | 3rdparty/minijail/libminijail.c:1728-1734 | exactly the prefix that fits is written, nothing past the capacity, and success means it all fitted |
| Marshal.StrBack | 3rdparty/minijail/util.c:530-537 | a stored string is read back and the bytes behind it are left |
| Marshal.MountBack | 3rdparty/minijail/libminijail.c:1841-1872 | reading a stored mount adds that mount |
| Marshal.RulesBack | 3rdparty/minijail/libminijail.c:1890-1907 | the rules are read back exactly when no mask is zero |
| Marshal.RoundTrip | 3rdparty/minijail/libminijail.c:1736-1924 | unmarshalling a marshalled jail succeeds exactly when masks and descriptor are not zero, consumes every byte and restores what was sent: not the preload path, file name, pid file path, id maps, remounts and hooks, which the reader clears, and the filter only under its flag |
| Marshal.Reader.ReadStr | 3rdparty/minijail/util.c:530-537 | the string up to the first zero byte, or failure without one; the rest is left |
| Marshal.Reader.ReadScalars | 3rdparty/minijail/libminijail.c:1764-1839 | the strings, groups and filter as specified, or failure |
| Marshal.Reader.ReadLists | 3rdparty/minijail/libminijail.c:1841-1922 | the mounts, replayed through the API, cgroups, rules, descriptor and policy path as specified, or failure |
| Marshal.Unmarshal | 3rdparty/minijail/libminijail.c:1736-1924 | the reader does what the specification says, and gives back what was sent of every marshalled jail, or fails, as for RoundTrip |
| Constants.ParsePrint | 3rdparty/minijail/util.c:311-398 | the text of every expression of literals, complements, unions and nested groups parses to its bitwise value |
| Constants.ParsedBits | 3rdparty/minijail/util.c:311-398 | the parsed value has a bit exactly when a literal sets it, either side of a union does, or what is complemented does not |
| Constants.Bits | 3rdparty/minijail/util.c:311-398 | the single-bit words this is stated for are 1 and its doubles up to the highest bit |
| Constants.Refused | 3rdparty/minijail/util.c:311-398 | a text is refused that is empty or starts with a token that is no literal, a group that is not closed, or one followed by anything but a pipe and more |
| Constants.TermBack | 3rdparty/minijail/util.c:311-398 | a printed term is read back with its value and what follows is left |
| Constants.GroupBack | 3rdparty/minijail/util.c:276-309 | a printed group is cut at its own closing parenthesis, whatever is nested in it |
| Constants.FindPipe | 3rdparty/minijail/util.c:460-494 | the first separator, or the end |
| Constants.SplitGroup | 3rdparty/minijail/util.c:276-309 | the text inside the parentheses and what follows, or failure when they are not closed |
| Constants.ParseConstant | 3rdparty/minijail/util.c:311-398 | the loop returns what the grammar says, and the bitwise value on every printed expression |
| WebSessions.StartKeeps | services/web/athena_web_server.cpp:973-1135 | every step of a start worker keeps the session consistent and never makes it active again; StartEnds says what it comes to |
| WebSessions.StopKeeps | services/web/athena_web_server.cpp:1182-1228 | so does every step of a stop worker |
| WebSessions.StopRequestKeeps | services/web/athena_web_server.cpp:1182-1185 | so does the exchange on cleanup_started |
| WebSessions.InsertKeepsLimit | services/web/athena_web_server.cpp:563-599 | a creation that found fewer active sessions than the limit does not exceed it, though sessions changed during its scan |
| WebSessions.InsertKeepsPorts | services/web/athena_web_server.cpp:567-594 | the new session shares no port with any listed one |
| WebSessions.StepKeeps | services/web/athena_web_server.cpp:563-1268 | every atomic step of every thread keeps the invariant |
| WebSessions.TableSafety | services/web/athena_web_server.cpp:563-599 | in every interleaving: listed active sessions within the limit, tokens and ports pairwise distinct, no stop body entered twice |
| WebSessions.NoContainerOutlives | services/web/athena_web_server.cpp:1137-1228 | once a stop has removed the containers, or a start has ended in failure, the session has none then and in every continuation |
| WebSessions.NothingLaunchedOnceSealed | services/web/athena_web_server.cpp:1020-1077 | once a stop worker holds the lifecycle lock no continuation launches a container; a session that left starting and running never returns |
| WebProgress.StartEnds | services/web/athena_web_server.cpp:973-1135 | in every interleaving a start that ends on a session nobody stops leaves it running with both containers, or failed with none |
| WebProgress.FailureIsFinal | services/web/athena_web_server.cpp:973-1135 | once an operation of its start has failed a session never runs, in any continuation |
| WebProgress.StartRuns | services/web/athena_web_server.cpp:973-1135 | a start for which everything goes well leads to a running session with both containers and changes nothing else |
| WebProgress.CreationRuns | services/web/athena_web_server.cpp:563-599 | whenever fewer sessions are active than allowed and no creation is under way, some continuation creates one that runs |
| WebProgress.InsertionRuns | services/web/athena_web_server.cpp:581-599 | from every state in which an insertion is enabled, the inserted session can come to run |
| WebSessions.StopRuns | services/web/athena_web_server.cpp:1182-1228 | a stop left to itself removes both containers and ends expired, when it preserves a session neither expired nor failed, or erased from the table |
| WebSessions.StoppedIsGone | services/web/athena_web_server.cpp:1207-1228 | a session whose stop is done is out of the table, or was preserved and is in a phase the housekeeper drops |
| WebSessions.StepListed | services/web/athena_web_server.cpp:1222-1227 | a step leaves all active sessions in the table exactly when it is not an erasure that meets one under its token |
| WebSessions.ListedExactly | services/web/athena_web_server.cpp:1258-1263 | in any run all active sessions stay listed exactly as long as no such erasure happens |
| WebSessions.LimitCoversAll | services/web/athena_web_server.cpp:563-599 | in every run without one the limit covers every session object, listed or not |
| WebSessions.OrphanExceedsLimit | services/web/athena_web_server.cpp:1258-1263 | after any such erasure some continuation exceeds the limit |
| WebSessions.NewTokensOrphanNone | services/web/athena_web_server.cpp:581-583 | no such erasure happens when no token is drawn twice |
| WebSessions.ReusedTokenBreaksLimit | services/web/athena_web_server.cpp:1258-1263 | a run with a reused token that exceeds a limit of one and shares ports |
| ReplSession.Session.CloseSession | clients/audmap-cli/repl_session.cpp:33-37 | the new state, what is sent and what is noticed are those of the step function |
| ReplSession.Session.Input | clients/audmap-cli/repl_session.cpp:57-127 | the same for a user line; CommandSent, UseSelects, SelectorSent, ExitLeaves and LineIgnored say what that is for each kind of line |
| ReplSession.Session.ReadNodes | clients/audmap-cli/repl_session.cpp:134-143 | the handle map of the reply, and the least handle that is nobody's parent if there is one |
| ReplSession.Session.ReceiveFrame | clients/audmap-cli/repl_session.cpp:128-157 | the same for a server frame; AnswerCloses and ResolvedChooses say what that is for answers and resolutions |
| ReplSession.TicketDiscipline | clients/audmap-cli/repl_session.cpp:30-157 | in every run every ticket is requested once with a larger number, cancelled only while pending, finished only when open, and nothing is sent for it before or after |
| ReplSession.SentFramesInOrder | clients/audmap-cli/repl_session.cpp:92-127 | of two frames sent, a later request has the larger ticket, and nothing follows CNL or FIN for its ticket |
| ReplSession.CancelOnlyWhilePending | clients/audmap-cli/repl_session.cpp:60-65 | the life of the ticket at the moment each kind of frame is sent |
| ReplSession.ConductExactly | clients/audmap-cli/repl_session.cpp:92-157 | the target is a known handle after every event exactly when no accepted resolution lacks a handle that is nobody's parent; then operations are asked of known handles, asked, answered and released in order |
| ReplSession.NoticesExactly | clients/audmap-cli/repl_session.cpp:131-156 | after every event of a run the notices alternate between opening ones and closing ones that fit them, the last open exactly when the session is busy, if and only if no answer naming operation 0 is taken while none is pending |
| ReplSession.FirstTarget | clients/audmap-cli/repl_session.cpp:134-143 | the first target is the least handle that is nobody's parent |
| ReplSession.TargetKnownExactly | clients/audmap-cli/repl_session.cpp:134-143 | the target is a handle exactly when such a handle, or the handle 0, exists |
| ReplSession.AcyclicHasLeaf | clients/audmap-cli/repl_session.cpp:134-143 | every acyclic resolution has one |
| ReplSession.UnnumberedAnswerClosesTwice | clients/audmap-cli/repl_session.cpp:151-156 | a run with operation number 0 in which one notice is closed twice |
| ReplSession.Drive | clients/audmap-cli/repl_session.cpp:30-157 | a session object fed with events is in the state the run theorems speak of |
| ReplLines.TrimOff | clients/audmap-cli/repl_session.cpp:23-27 | trimming takes off exactly the white space around a text |
| ReplLines.TypedExactly | clients/audmap-cli/repl_session.cpp:103-105 | command and arguments are the parts of the one way to read the line as white space, a word, white space and a rest |
| ReplLines.UseSelects | clients/audmap-cli/repl_session.cpp:106-112 | a `use` line makes the handle its decimal text names the target, and does nothing when that names none |
| ReplLines.UseDigits | clients/audmap-cli/repl_session.cpp:106-112 | the same for the digits of any 64-bit handle |
| ReplLines.CommandSent | clients/audmap-cli/repl_session.cpp:113-124 | any other command is sent to the target with the first word of the line and its arguments, or refused with its number spent |
| ReplLines.SelectorSent | clients/audmap-cli/repl_session.cpp:94-101 | without a ticket the trimmed line is requested under the next ticket, or refused |
| ReplLines.LineIgnored | clients/audmap-cli/repl_session.cpp:57-92 | blank lines, lines after the end, and lines other than `exit` while waiting change nothing |
| ReplLines.ExitLeaves | clients/audmap-cli/repl_session.cpp:60-65 | `exit` cancels or finishes the ticket and closes what is pending, or ends a session without one |
| ReplLines.OverForGood | clients/audmap-cli/repl_session.cpp:33-37 | after a close nothing is sent or noticed any more |
| ReplLines.ResolvedChooses | clients/audmap-cli/repl_session.cpp:131-145 | an accepted resolution knows exactly its handles and targets the least that is nobody's parent, or 0 without one |
| ReplLines.FirstParent | clients/audmap-cli/repl_session.cpp:135-138 | the first node of a handle names its parent |
| ReplLines.TargetIsLastChoice | clients/audmap-cli/repl_session.cpp:57-157 | in every run the target in operation mode is the handle of the last accepted `use` since the resolution, or the resolution's own choice when there was none |
| ReplLines.FramesAsTyped | clients/audmap-cli/repl_session.cpp:92-127 | in every run each request, lineage query and operation sent goes back to one line, carries its words, and goes to that target |
| ReplLines.AnswerCloses | clients/audmap-cli/repl_session.cpp:146-150 | the answer to the pending operation closes its notice with Done when it is OK and with Failed otherwise, and the operation is released |
| ReplLines.NoticesMeant | clients/audmap-cli/repl_session.cpp:128-157 | in every run Done comes only behind an accepted resolution or an OK answer, Failed only behind another answer or an error |
| IceUri.DecodeEncode | services/web/web_server_common.cpp:175-208 | decoding undoes encoding for every byte string |
| IceUri.EncodedAlphabet | services/web/web_server_common.cpp:194-208 | encoded text holds unreserved characters and percent signs only (sections 2.1 and 2.3 of RFC 3986) |
| IceUri.PercentEncode | services/web/web_server_common.cpp:194-208 | the loop computes the encoding |
| IceUri.PercentDecode | services/web/web_server_common.cpp:175-192 | the loop computes the decoding, malformed escapes and plus signs included |
| IceForms.DecodeHead | services/web/web_server_common.cpp:175-192 | an escape with digits of either case stands for its byte, a plus sign for a blank, anything else for itself |
| IceForms.EncodeKeeps | services/web/web_server_common.cpp:194-208 | unreserved text is its own encoding |
| IceUri.ParseBuilt | services/web/web_server_common.cpp:404-432 | parsing a built TURN URI returns its scheme, user, credential and authority, whatever bytes they hold |
| IceForms.FormParses | services/web/web_server_common.cpp:404-432 | every text of a scheme in any case, a colon, optional slashes, an optional user and an authority is read back part by part |
| IceForms.ParsedForm | services/web/web_server_common.cpp:404-432 | no other text is accepted |
| IceForms.PlainParses | services/web/web_server_common.cpp:404-432 | a URL without a user stands for itself, with no credentials |
| IceUri.TurnOrStun | services/web/web_server_common.cpp:404-432 | every parsed server is a TURN or a STUN server and not both |
| IceUri.ServerReparses | services/web/web_server_common.cpp:491-500 | the URI stored for an accepted server parses back to that server |
| IceUri.AddUrl | services/web/web_server_common.cpp:476-500 | a URL is accepted exactly when it parses and the credentials fit its kind, and becomes the server described for ServerAdded |
| IceForms.ServerAdded | services/web/web_server_common.cpp:476-500 | what a URL becomes: accepted exactly with both credentials for TURN and none for STUN; the browser gets scheme and authority, the streamer a URI that also carries the credentials |
| IceForms.KindIs | services/web/web_server_common.cpp:479-482 | a server counts as TURN or STUN by its scheme |
| IceForms.EntryExactly | services/web/web_server_common.cpp:446-490 | an entry is accepted exactly when it has both credentials or neither and every URL is of a form that goes with that |
| IceForms.ServersInOrder | services/web/web_server_common.cpp:446-500 | each URL gives the server at its place in the response |
| IceUri.ParseCredentials | services/web/web_server_common.cpp:434-512 | accepted exactly when every entry is well formed and a STUN and a TURN server are among them; the servers are those of ServersInOrder; every URI parses back |
| DownloadPath.SplitJoin | services/web/web_server_common.cpp:210-223 | splitting undoes joining for valid names |
| DownloadPath.SplitAccounts | services/web/web_server_common.cpp:154-165 | the parts account for all characters only if the path is the parts with single slashes |
| DownloadPath.SplitPath | services/web/web_server_common.cpp:210-223 | the nested loops compute the split |
| DownloadPath.ValidDownloadPath | services/web/web_server_common.cpp:154-165 | accepted exactly when the path is a list of valid names joined by single slashes within the length limit; AcceptedExactly says which texts these are |
| PathWalk.AcceptedExactly | services/web/web_server_common.cpp:142-165 | the accepted paths have at most 1024 characters and between slashes only pieces of 1 to 240 characters without control characters and backslashes, none of them a dot or two |
| PathWalk.StaysInside | services/web/web_server_common.cpp:154-165 | walking an accepted path from the root never leaves it, and goes down through its names in order |
| MacroCatalog.Discovery.Declare | tools/generate-shipped-macro-labels.py:100-110 | an assignment adds the declaration or alias it makes, the new name before the old, or fails |
| MacroCatalog.Discovery.CallFactories | tools/generate-shipped-macro-labels.py:111-122 | the instantiations of all fitting factories are visited and the new ones queued, or the limit is exceeded |
| MacroCatalog.Discovery.ScanTree | tools/generate-shipped-macro-labels.py:96-124 | the recursive scan takes in exactly what the tree contributes, or reports why not |
| MacroCatalog.LiteralPass | tools/generate-shipped-macro-labels.py:74-94 | literal declarations, aliases and factories of all assignments, as LiteralsGive, LiteralsHold and LiteralsFail say |
| MacroCatalog.Saturate | tools/generate-shipped-macro-labels.py:126-130 | the worklist ends; everything reachable has been taken in and nothing some solution does without |
| MacroCatalog.CloseAliases | tools/generate-shipped-macro-labels.py:131-136 | the names are closed under aliases and still within every solution |
| MacroCatalog.UnresolvedCounts | tools/generate-shipped-macro-labels.py:82-84 | the literal pass counts the macros assigned to names that are not static |
| MacroCatalog.Discover | tools/generate-shipped-macro-labels.py:64-137 | succeeds exactly when a solution with at most 10000 calls exists, and then returns the least one and that count; ExplainsExactly says what a solution is |
| MacroTrees.MergedText | tools/generate-shipped-macro-labels.py:57-60 | a merge of known texts names their concatenation, in order |
| MacroTrees.ArgumentText | tools/generate-shipped-macro-labels.py:53-54 | an argument stands for what its parameter is bound to |
| MacroTrees.Unwrapped | tools/generate-shipped-macro-labels.py:40-43 | a style wrapper with an odd number of children stands for its last child |
| MacroTrees.BoundTo | tools/generate-shipped-macro-labels.py:121-121 | each parameter is bound to the argument in its place |
| MacroTrees.ScanFinds | tools/generate-shipped-macro-labels.py:96-124 | a scan takes in exactly the declarations, aliases and calls of the nodes it visits, and fails exactly when one of them is at fault |
| MacroTrees.LiteralsGive | tools/generate-shipped-macro-labels.py:76-94 | the literal pass takes in exactly the names and aliases the assignments make |
| MacroTrees.LiteralsHold | tools/generate-shipped-macro-labels.py:87-90 | it collects exactly the factories of macros whose parameters have distinct static names |
| MacroTrees.LiteralsFail | tools/generate-shipped-macro-labels.py:76-94 | it fails exactly at an assignment that is at fault |
| MacroTrees.ExplainsExactly | tools/generate-shipped-macro-labels.py:64-137 | calls and names are a solution exactly when they hold what every node of the trees declares: literally, in the documents, and in every body called for with its parameters bound |
| MacroTrees.FactoriesCollected | tools/generate-shipped-macro-labels.py:87-90 | the factories called are those the documents define |
| MacroTrees.MacroNamed | tools/generate-shipped-macro-labels.py:82-86 | a macro assigned to a literal name anywhere puts the name in the catalog |
| MacroTrees.AliasNamed | tools/generate-shipped-macro-labels.py:131-136 | `x := value y` puts x in the catalog when y is |
| MacroTrees.InstanceNamed | tools/generate-shipped-macro-labels.py:111-130 | calling a factory whose body makes a parameter a macro puts the argument in the catalog |

## Left out

- Text handling of policy files: a file is a list of logical lines already split into names, atoms, groups and return clauses; malformed text is represented by the cases the compiler refuses. Constant values and the system call table are parameters.
- The bpf.c variants for 32-bit builds, which are single comparisons.
- Filter actions are the four the code knows; any other value, which compile_filter refuses at its end, is not represented.
- FdRemap: dup2 fails only for a closed source or a target outside the limit; elf_fd and the pipes are one list, and fcntl and close are effects on one table.
- A read outside the label table ends the model of a compilation: what the code does with the value found there is not described.
- Marshal: the structure's own bytes are a list of words and an opaque rest rather than the C layout; unmarshalling is specified on every input, but proved to restore something only for marshalled jails; allocation failure and the release of partial results are not modelled.
- Constants: the parser's in-place writes of terminators are slices of the text; strtol is a parameter; the language accepted is larger than the one printed; outside printed text only the refusals of Refused are stated.
- WebSessions: a state machine over values whose steps are the code's critical sections, rather than objects with locks. Deadlines and heartbeats are abstracted to requests that may come at any time, `podman rm` is taken to succeed, a container belongs to its session object, and the destructor of the manager is not modelled.
- ReplSession: printed text is not modelled; JSON and selector parsing are parameters; frames are already decoded, since a malformed one ends the program; numbers do not wrap at 64 bits.
- IceUri: JSON decoding comes before the model; the response is a list of entries.
- MacroCatalog: the rendering of labels; trees are compared by their place, as a factory's name and position, instead of by object identity.
- Kernel-facing parts of libminijail.c, configuration and command-line parsing, logging, HTTP and websocket transport, the transmitter and the terminal loops: their effects lie outside the program or they would add only easy members.
