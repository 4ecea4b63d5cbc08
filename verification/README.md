# Leash: a model of the supervisor and proofs about it

Leash supervises an agent's system calls. A seccomp program decides which calls notify the
supervisor; a single-threaded loop gathers facts about each notified call, decides it against a
policy, records the decision and answers; a confined broker performs approved effects; and a
Landlock hull derived from the same policy stands behind both. This project models those parts and
proves what they promise, separately and together.

## How the model is built

- **Policy** (`Glob`, `Host`, `Policy`, `Text`, `Bits`): patterns are compiled and matched by the
  same nested backtracking loops, proved equal to a declarative reading of the pattern; address
  blocks are compared by masks, proved equal to agreement of the leading bits; evaluation is first
  match.
- **Kernel hull** (`Landlock`): the derivation, proved to cover everything the policy can allow and
  to grant nothing no rule asks for, and the loaded rules: those for paths keep both through anchoring
  and masking on any disk, those for ports keep both but for port 0. Access masks are sets of rights,
  one element per bit.
- **Filter** (`Syscalls`, `Filter`): the jump-offset compiler and the interpreter of its instruction
  subset, for every table of legal size with one `sendto`.
- **Child memory** (`Memory`): the page-chunked readers over a reader that may split and refuse
  reads as it likes, proved equal to a plain scan.
- **Loop** (`Facts`, `Invocations`, `Decisions`, `Sockaddr`, `Recorder`, `Anchors`, `Broker`,
  `Kernel`, `Protocol`, `NotifyLoop`, `LoopLaws`): the handlers are methods over a kernel, an
  operator, a sink and a broker connection whose every answer is arbitrary. Each interaction is
  noted as an event. `Protocol` defines, apart from the handlers, a reference monitor that says of
  each event whether it may happen given the history of the notification in hand. `NotifyLoop`
  proves that every run of the loop, however long and wherever it fails, is accepted by that
  monitor, answers or drops each notification exactly once, and leaves a trace that holds exactly
  the events recorded. `LoopLaws` proves what every accepted run obeys.
- **The calls themselves** (`Registers`, `CallLaws`, `HullChecks`): the C signatures of the mediated
  calls and the rights the kernel looks for are written down as accounts of their own, and the tables
  of the loop, the filter and the hull are proved against them. `CallLaws` says of each kind of call,
  on the log alone, where the facts of its event were read, what decided it, what was pinned,
  committed and transmitted for it, and what it was answered.
- **Session, spawn and command line** (`Session`, `Handshake`, `Cli`, `Calendar`): the order of
  lifecycle events and the run of the loop between them, the two-process handshake as a state machine
  under any interleaving and any failure, up to the loop's answer to the agent's own execve, the flag
  parser against its renderings, and the run stamps against the calendar.

Machine words are integers with truncation and wrap-around written out where they matter; a flag
word of type i32 is kept as its 32-bit pattern. Text is a sequence of characters. Clocks, the
network, the file system and random choices are arbitrary values or parameters.

## Where code and documentation disagree

The model follows the code.

- `creat` is declared with a fixed access, so it is sent to the mutation table, which has no entry
  for it: it is refused as unreadable in every mode, although `open_mode` expects it
  (src/supervisor/fact.rs:122-127, src/supervisor/run.rs:315, 370-372, 561-564). See
  `LoopLaws.ReadableCallsAreDecided` and `LoopLaws.CreatIsRefused`.
- A dropped notification is documented as leaving no event (src/supervisor/run.rs:283); the caller
  can also be found dead after the record, and then an event that grants the call stands without an
  answer or an effect (src/supervisor/run.rs:819-825). That happens exactly when the death is seen
  after the append, which only an enforcing run asks for, of a brokered call its event grants. See
  `LoopLaws.DroppedEventExactlyWhenRecordedFirst`, `LoopLaws.RecordedThenDroppedExactlyWhen` and the
  run in `LoopLaws.DroppedEventCanStand`.
- `parent_handshake` is documented to reap the child on any failure (src/supervisor/spawn.rs:147-148).
  Whether it does depends on what it failed at. After its acknowledgement (src/supervisor/spawn.rs:180-184)
  it does: it has dropped the listener, so the child's own trapped execve fails and the child ends.
  Before it (src/supervisor/spawn.rs:155-169) it does only if the child is dead or fails by itself:
  a living child waits for an acknowledgement that never comes, on a socket the parent keeps open,
  and the parent for the child. At wrapping the notify fd (src/supervisor/spawn.rs:186), or when the
  wait itself fails (src/supervisor/spawn.rs:156, 167, 182), it returns without reaping, and the
  child ends as a zombie. No failed spawn has a running agent. See `Handshake.ReapedExactlyWhen`,
  `Handshake.FailedSpawnEnds`, `Handshake.StuckWithoutAck`, `Handshake.UnreapedExactlyWhen` and the
  runs in `Handshake.SpawnCanHang` and `Handshake.SpawnCanLeaveZombie`.
- The hull is documented not to deny what the policy allows (docs/design/policy.md:190-192). A rule
  without a port allows a bind to port 0, and the grant of all ports is loaded from port 1
  (src/sandbox/landlock.rs:495-499), so where the kernel looks at ports that bind is denied. See
  `Landlock.RulesetCoversNet` and `Landlock.PortZeroIsCutOff`.
- An empty `--policy` value is documented as an error (src/cli.rs:70); the parser refuses it only in
  the joined form (src/cli.rs:154-164). See `Cli.EmptyPathsPassWhenSeparate` and
  `Cli.EmptyPathExactlyWhenSeparate`.
- The design asks that Landlock never deny what the policy permits, and counts hard links between
  directories among what needs Refer (docs/design/policy.md:190-192,
  docs/adr/0012-kernel-floor-linux-5-19.md:24-31). Of the source of a link only Read is demanded
  (src/supervisor/run.rs:894), and Read does not grant Refer (src/sandbox/landlock.rs:47), so such a link
  is backed exactly when the workspace or a create or delete rule lies at or above its source. See
  `CallLaws.CommitsPassTheKernel`, `HullChecks.GrantedExactlyWhenAskedFor` and
  `HullChecks.LinkAcrossIsCutOff`.
- A short IPv6 block that contains the IPv4-mapped range never matches a mapped destination, because
  destinations are normalized first (src/policy/host.rs:70-92, src/supervisor/run.rs:1418). See
  `Host.AcceptedBlockCoversNormalized` and `Host.ShortBlockMissesMapped`.

## Model

| member | source | states |
|---|---|---|
| Glob.UnitsStarTakesAnyRun | src/policy/glob.rs:197-244 | a star inside a component matches exactly when the rest matches after some number of characters, any number |
| Glob.UnitsNewestStarSuffices | src/policy/glob.rs:216-238 | once the items between two stars have been placed, giving the older star more characters can never help: backtracking to the newest star alone is complete |
| Glob.UnitsNothingLater | src/policy/glob.rs:216-238 | when the newest star has run out of text, no choice for any earlier star matches |
| Glob.MatchUnits | src/policy/glob.rs:200-244 | the backtracking loop answers true exactly when the component matches the declarative reading; it terminates |
| Glob.SegmentsStarTakesAnyRun | src/policy/glob.rs:154-195 | a whole-component double star matches any number of components |
| Glob.SegmentsNewestStarSuffices | src/policy/glob.rs:154-195 | the same completeness of last-star backtracking one level up |
| Glob.SegmentsNothingLater | src/policy/glob.rs:154-195 | and of giving up when the last double star is exhausted |
| Glob.MatchSegments | src/policy/glob.rs:154-195 | the outer loop answers true exactly when the component list matches the declarative reading; it terminates |
| Glob.IsMatch | src/policy/glob.rs:136-141 | a pattern matches a path exactly when the whole path, split at separators, matches |
| Glob.Compile | src/policy/glob.rs:66-129 | compilation succeeds exactly on the grammar, and otherwise reports the first fault, classified |
| Glob.PairsAndComponents | src/policy/glob.rs:78-102 | checking star runs over the whole text is checking every component: no run reaches across a separator |
| Glob.PrintInvertsCompile | src/policy/glob.rs:104-129 | the compiled segments, joined by separators, print back to the pattern |
| Glob.NoAdjacentStars | src/policy/glob.rs:78-102 | no compiled component holds two stars side by side |
| Glob.LiteralComponent | src/policy/glob.rs:200-244 | a component without metacharacters matches itself and nothing else |
| Host.MaskIsHighBits | src/policy/host.rs:176-196 | the mask is the high `prefix` bits, at every prefix and without an overflowing shift |
| Host.CidrAgreesOnLeadingBits | src/policy/host.rs:176-196 | containment holds exactly when the families agree and the top `prefix` bits do (section 3.1 of RFC 4632) |
| Host.CidrMonotone | src/policy/host.rs:176-196 | a longer prefix contains no more than a shorter one |
| Host.MappedBlockRewrite | src/policy/host.rs:70-92 | rewriting a mapped block to IPv4 accepts exactly the IPv4 addresses whose mapped forms the block held (section 2.5.5.2 of RFC 4291) |
| Host.AcceptedBlockCoversNormalized | src/policy/host.rs:70-92 | an accepted IPv6 block matches a normalized destination exactly when the block holds the destination and, if the destination is mapped, so is the block |
| Host.ShortBlockMissesMapped | src/policy/host.rs:134-139 | the other case is real: `::/0` holds a mapped address its rule never matches |
| Host.ParsedRulesAreWellFormed | src/policy/host.rs:57-100 | parsed rules are normal: names lower-case and valid, addresses in range and unmapped, prefixes within the width |
| Host.RulesAreReadAsWritten | src/policy/host.rs:57-100 | a star alone is anything and nothing else is, a star and a dot before a name its subdomains, a slash makes a block, an address is itself normalized, and what is left a name in lower case |
| Host.SuffixCoversStrictSubdomains | src/policy/host.rs:116-131 | a wildcard matches exactly the names that put something and a dot before the suffix, in any case |
| Policy.FirstFs | src/policy/engine.rs:163-179 | finds a matching rule with no matching rule before it, or shows that none matches |
| Policy.FirstNet | src/policy/engine.rs:180-193 | the same for the net table |
| Policy.FirstExec | src/policy/engine.rs:194-208 | the same for the exec table |
| Policy.FirstFsRuleDecides | src/policy/engine.rs:163-179 | the first fs rule whose pattern matches and one of whose modes is a requested access decides by its action and is named; with none, what is the workspace or written behind it and a separator is allowed and all else denied |
| Policy.NetRuleReads | src/policy/engine.rs:242-253 | a rule matches exactly when its port is absent or equal and its host is anything, this address, a block that holds it, the name in any case, or a suffix with something and a dot in front |
| Policy.FirstNetRuleDecides | src/policy/engine.rs:180-193 | the first net rule that applies in these words decides by its action and is named; with none the destination is denied |
| Policy.FirstExecRuleDecides | src/policy/engine.rs:194-208 | the same for a program; with no matching rule it is denied |
| Policy.RecordOnlyFlagsWhatEnforceDenies | src/policy/engine.rs:138-155 | record-only allows everything and flags exactly what enforce would deny |
| Landlock.HierarchyRootIsAncestor | src/sandbox/landlock.rs:252-272 | every absolute path a pattern matches lies, component by component, beneath the root derived from the pattern |
| Landlock.FsModesToRights | src/sandbox/landlock.rs:193-204 | the loop computes the union of the modes' rights, cut to what the ABI handles |
| HullChecks.ModeGrantsItsRow | src/sandbox/landlock.rs:193-204 | read backwards: a mode grants a right exactly when it is one of those that stand behind it, and nothing outside its row |
| HullChecks.GrantedExactlyWhenAskedFor | src/sandbox/landlock.rs:125-154 | the hull holds a right at or above any path exactly when the workspace is there, or a permitting rule with a mode behind the right is rooted there, or for executing an exec rule |
| HullChecks.DemandsBringNeeds | docs/design/syscalls.md:78-90 | whatever the kernel looks for when an operation is performed on an operand comes with an access that is demanded of that operand, but for the source of a hard link between directories |
| HullChecks.LinkAcrossIsCutOff | docs/adr/0012-kernel-floor-linux-5-19.md:24-31 | the exception is real: a policy that allows such a link and whose hull lacks Refer at its source |
| Landlock.DeriveNetGrant | src/sandbox/landlock.rs:227-243 | all ports exactly when some permitting rule omits its port, else exactly the ports of the permitting rules |
| Landlock.DeriveHull | src/sandbox/landlock.rs:125-185 | the loops compute the grants the coverage results speak of |
| Landlock.HullCoversFs | src/sandbox/landlock.rs:125-145 | for any policy, ABI, absolute path and single access that enforce does not deny, some grant at or above the path carries every right the access needs |
| Landlock.HullCoversExec | src/sandbox/landlock.rs:146-154 | the same for execution |
| Landlock.HullCoversNet | src/sandbox/landlock.rs:227-243 | the same for ports |
| Landlock.GrantsAreHandled | src/sandbox/landlock.rs:193-225 | no grant exceeds the handled rights |
| Landlock.HullGrantsOnlyJustified | src/sandbox/landlock.rs:125-185 | every granted right at every root comes from the workspace or from a permitting rule rooted there |
| Landlock.DeepestExistingAncestor | src/sandbox/landlock.rs:533-547 | the loop stops at the deepest existing path at or above the grant's root, or finds none |
| Landlock.RulesetCoversFs | src/sandbox/landlock.rs:428-465 | on any disk where every grant can be anchored and nothing lies beneath a plain file, each undenied access to a path is carried whole by one loaded rule at or above it, less directory-only rights only when that rule stands on the path itself and the path is a plain file |
| Landlock.RulesetCoversExec | src/sandbox/landlock.rs:428-465 | an undenied program has a loaded rule with EXECUTE at or above it, whatever the anchors turn out to be |
| Landlock.RulesetIsJustified | src/sandbox/landlock.rs:77-83 | every right of a loaded rule is a handled one that the workspace or a permitting rule asks for, at the root it asks for or at the deepest existing ancestor of that root, and directory-only rights are loaded on directories alone |
| Landlock.AddNetRules | src/sandbox/landlock.rs:491-507 | the loop loads the listed ports, or every port from 1 to 65535 |
| Landlock.RulesetCoversNet | src/sandbox/landlock.rs:418-420 | an undenied port passes the loaded rules exactly when the ABI does not look at ports or the port is not 0 |
| Landlock.PortZeroIsCutOff | src/sandbox/landlock.rs:495-499 | the other case is real: a portless allow rule and a bind to port 0 |
| Landlock.PortRulesAreJustified | src/sandbox/landlock.rs:227-243 | a port rule is loaded only for a port some permitting rule names, or when one names none |
| Filter.BuildFilter | src/sandbox/filter.rs:170-267 | for any table of legal size with one `sendto`, running the emitted program on any call ends within its own length with notify exactly for foreign architectures, x32 numbers and tabled calls other than a destination-less `sendto`; every jump fits eight bits |
| Filter.EmittedProgramDecides | src/sandbox/filter.rs:170-267 | the decision of the emitted instructions, for every call |
| Filter.SendToBlock | src/sandbox/filter.rs:211-245 | the block that clobbers the accumulator always returns, so no later comparison sees it |
| Filter.JumpsFit | src/sandbox/filter.rs:170-267 | all jump offsets fit the u8 fields |
| Filter.ShippedTablesAreBuildable | src/sandbox/filter.rs:115-164 | the shipped tables are within those limits |
| Registers.TablesByName | src/sandbox/filter.rs:115-164 | the shipped tables hold the file, network, execution, creation, cross-process and denied calls, by name, and no others |
| Registers.MediatedIsRaised | src/supervisor/run.rs:462-528 | the filter raises exactly what the loop mediates: foreign and x32 entries and the calls of a family, but for a send without a destination |
| Registers.NamedCallsNotify | src/sandbox/filter.rs:170-267 | run on any call, a program built for the shipped tables notifies exactly for those |
| Filter.X32IsBitThirty | src/sandbox/filter.rs:62 | the x32 test is bit 30 |
| Filter.Run | src/sandbox/filter.rs:278-322 | the interpreter loop computes the execution function the decisions are stated with |
| Memory.ReadCstrCapped | src/supervisor/mem.rs:48-94 | whatever pieces the reader answers in, the result is that of a byte-by-byte scan to the cap; no read crosses a page or leaves the capped window |
| Memory.ScanMeaning | src/supervisor/mem.rs:48-94 | the scan returns a string exactly when the first nul lies before the cap with every byte before it readable, and no-nul exactly when the whole cap is readable and nul-free |
| Memory.FillBuffer | src/supervisor/mem.rs:64-79 | the inner loop delivers the bytes in order and stops early only at an unreadable one |
| Memory.ReadExactCapped | src/supervisor/mem.rs:98-113 | all of the bytes exactly when all are readable, else an error, which if a short read carries the number of bytes before the first unreadable one; no read leaves the capped window |
| Facts.ShapeOf | src/supervisor/fact.rs:112-249 | the table's argument positions are registers, fixed accesses are not empty, and only fixed-access calls have a second path |
| Facts.OpenFlagsAccess | src/supervisor/fact.rs:280-293 | the step-by-step list is the requested accesses, each once, in order |
| Facts.OpenAccessMeaning | src/supervisor/fact.rs:278-293 | read, write and create by the access-mode bits, the truncate bit and the create bit |
| Registers.FamiliesByName | src/supervisor/run.rs:462-528 | each call is handled by the family its name says |
| Registers.PathsBySignature | src/supervisor/fact.rs:112-249 | the paths read are the path registers of the C signature, each once and in order, each anchored at the descriptor in front of it |
| Registers.AnchorBySignature | src/supervisor/run.rs:1462-1467 | a relative path starts at that descriptor, unless its low word says the working directory |
| Registers.JoinedIsBehind | src/supervisor/run.rs:1468-1470 | a relative path joined to its prefix names what lies behind it |
| Registers.AccessesByName | src/supervisor/fact.rs:112-249 | the accesses each call is recorded with |
| Registers.MutationBySignature | src/supervisor/run.rs:321-375 | each parameter of a mutation is the low word of the register that carries it in the C signature |
| Registers.OpenBySignature | src/supervisor/run.rs:312-319 | flags and mode of an open are those of its registers |
| Registers.HowIsReadBack | src/supervisor/run.rs:576-610 | a laid-out `open_how` is read back, and oversized, extended or resolving ones are refused |
| Registers.FollowRules | src/supervisor/run.rs:858-880 | which operands are followed, by the bits of their flags |
| Registers.NetworkBySignature | src/supervisor/run.rs:1226-1236 | addresses and payloads are read at their registers |
| Invocations.OperandsMatchArguments | src/supervisor/fact.rs:112-249 | a call has a second path argument exactly when its mutation has two operands or is a symlink |
| Invocations.AtFormsAgree | src/supervisor/run.rs:312-375 | each at-form asks for exactly what its plain form asks for, read one register later (two for the second path) |
| Invocations.AtFormsReadTheSamePaths | src/supervisor/fact.rs:112-249 | and its paths and flags sit in those registers, with the same access |
| Invocations.MissingOnlyWhereCreated | src/supervisor/run.rs:858-924 | an operand may be missing exactly when the call brings it into being, and then Create is demanded of it |
| Invocations.DemandsOfEachCall | src/supervisor/run.rs:883-924 | which accesses each call demands of each operand: renames delete and create, exchanges both on both, links read and create, the rest what they record |
| Decisions.VerdictLaw | src/supervisor/run.rs:387-448 | the answer is allow exactly when there is something to decide and every evaluation is an allow or an approved ask; a refusal is the first refused evaluation |
| Decisions.VerdictOfTwo | src/supervisor/run.rs:786-794 | combining two operands' decisions is deciding their accesses in order |
| Decisions.FinalizeOperand | src/supervisor/run.rs:951-981 | the loop computes that decision and the evidence list in order |
| Decisions.FirstHostOf | src/supervisor/run.rs:1344-1357 | the hostname offered to the policy is that of the first exact rule, in rule order, whose resolved addresses hold the destination, and none only if there is no such rule |
| Sockaddr.ParseInvertsLayout | src/supervisor/run.rs:1387-1425 | reading a laid-out address gives it back, normalized, with its port, whatever the ignored fields hold |
| Sockaddr.ParsedIsNormal | src/supervisor/run.rs:1387-1425 | every destination read is a valid unmapped address with a 16-bit port |
| Recorder.TraceWriter.Append | src/recorder.rs:300-309 | a landed append adds one line numbered by its position; a failed one adds none and ends the writer's use |
| Recorder.TraceWriter.Sync | src/recorder.rs:312-315 | a sync makes every complete line durable, or none more |
| Anchors.RootPlusRelativeIsPath | src/supervisor/broker.rs:343-364 | the selected root is a component prefix of the path; the relative part is a stretch of the path's own text that starts and ends with a name, and root plus relative part is the path |
| Anchors.SelectionRule | src/supervisor/broker.rs:343-364 | inside the workspace its anchor or none; elsewhere an ancestor exactly if there is one, and every anchor above the path is at or above it |
| Broker.TokenComesBackLate | src/supervisor/broker.rs:647-648 | across the u64 wrap-around a token recurs only after all others have been issued |
| Broker.BrokerState.PreparePath | src/supervisor/broker.rs:574-665 | a pinned operand lies beneath its anchor and is missing only if that was allowed, under a token nobody holds unless every token has been issued since nothing was held; otherwise nothing is held |
| Broker.BrokerState.FreshToken | src/supervisor/broker.rs:647-648 | the next token is not held, as long as fewer tokens were issued since nothing was held than there are |
| Broker.BrokerState.Release | src/supervisor/broker.rs:559-562 | a release removes exactly its token |
| Broker.BrokerState.CommitOpen | src/supervisor/broker.rs:667-693 | an open consumes its token whatever comes of it, and an unknown token is refused |
| Broker.BrokerState.CommitMutation | src/supervisor/broker.rs:751-792 | a mutation consumes its operands whatever comes of it |
| Broker.BrokerState.Transmit | src/supervisor/broker.rs:695-749 | no descriptor results; without a passed socket the answer is EBADF, for an address of impossible length EINVAL, and of another family EAFNOSUPPORT |
| Broker.Client.PreparePath | src/supervisor/broker.rs:217-257 | the identity pinned is absolute and beneath an anchor that is also above the requested path, under a token as fresh as the broker's |
| Broker.Client.Release | src/supervisor/broker.rs:296-309 | a release that is confirmed has given back its token |
| Broker.Client.CommitOpen | src/supervisor/broker.rs:260-275 | a decoded result means the token is consumed |
| Broker.Client.CommitMutation | src/supervisor/broker.rs:278-293 | a decoded result means the operands are consumed, or the primary token was unknown and nothing was |
| Kernel.ProcessInTree | src/supervisor/run.rs:1680-1692 | on a process table that holds still, true exactly for targets that reach the root within 256 parents, none of them init before it |
| NotifyLoop.Supervisor.HandleNotification | src/supervisor/run.rs:462-528 | handling any notification is accepted by the monitor event by event, and ends answered or dropped with nothing pinned, or broken with nothing left but to give up |
| NotifyLoop.Supervisor.HandleFs | src/supervisor/run.rs:531-661 | the same for the filesystem families: bracketed reads, then the record, then the one answer the history calls for |
| NotifyLoop.Supervisor.HandleFsEnforce | src/supervisor/run.rs:665-855 | the same for the two-phase brokered path with one or two operands |
| NotifyLoop.Supervisor.HandleExec | src/supervisor/run.rs:1045-1107 | the same for execve and execveat |
| NotifyLoop.Supervisor.HandleProcess | src/supervisor/run.rs:1109-1177 | the same for process creation |
| NotifyLoop.Supervisor.HandleCrossProcess | src/supervisor/run.rs:1179-1215 | the same for cross-process control |
| NotifyLoop.Supervisor.HandleNetwork | src/supervisor/run.rs:1217-1342 | the same for connect, bind and sendto |
| NotifyLoop.Supervisor.ReadAnchored | src/supervisor/run.rs:1453-1473 | one path argument is read and anchored as far as its anchor is readable |
| NotifyLoop.Supervisor.GatherFs | src/supervisor/run.rs:546-613 | what is gathered is what the history says was read, or none exactly when it cannot be trusted |
| NotifyLoop.Supervisor.ReadOpenHow | src/supervisor/run.rs:576-610 | the structure is read at its declared size, bounded, and understood or refused |
| NotifyLoop.Supervisor.SettleAsks | src/supervisor/run.rs:409-417 | one prompt at most, only attended and only for a nonempty list; its answer settles every ask |
| NotifyLoop.Supervisor.ResolveDecision | src/supervisor/run.rs:377-382 | a single request's decision under its own ask |
| NotifyLoop.Supervisor.EvaluateRequired | src/supervisor/run.rs:927-948 | each required access is evaluated on its own and the asks are collected in order |
| NotifyLoop.Supervisor.DecideOne | src/supervisor/run.rs:758-794 | the decision and evidence over one pinned operand |
| NotifyLoop.Supervisor.DecideTwo | src/supervisor/run.rs:758-794 | the decision and evidence over two pinned operands under one answer |
| NotifyLoop.Supervisor.Pin | src/supervisor/run.rs:695-749 | pinning is admitted, and yields a token not held before, an errno, or the end of the run |
| NotifyLoop.Supervisor.UnpinAll | src/supervisor/run.rs:810-825 | giving operands back leaves none pinned |
| NotifyLoop.Supervisor.Realize | src/supervisor/run.rs:796-855 | record first, then give back on a refusal or a dead caller, then commit |
| NotifyLoop.Supervisor.Commit | src/supervisor/run.rs:827-854 | one commit of the recorded call, or none for an unsupported open, and its result as the answer |
| NotifyLoop.Supervisor.Record | src/supervisor/run.rs:1481-1517 | the event recorded is the one the history determines; failure leaves only teardown |
| NotifyLoop.Supervisor.Respond | src/supervisor/run.rs:450-458 | the answer sent is the one the history determines; a vanished target is tolerated and any other failure ends the run |
| NotifyLoop.Validate | src/supervisor/run.rs:223-232 | a configuration is found fit exactly when an enforcing one has a policy and a broker; a missing policy is reported first |
| NotifyLoop.Supervisor.RunLoop | src/supervisor/run.rs:1603-1671 | an unfit configuration kills the tree before any notification; else, over any polls, every event of the run is accepted, the trace is the preamble and then exactly the landed events, nothing is pinned between notifications, and an error ends with the tree killed or the last wait failed |
| NotifyLoop.UntabledIsSilent | src/supervisor/run.rs:526-527 | what no family handles the filter never raises |
| NotifyLoop.ConnectedSendIsSilent | src/supervisor/run.rs:1228-1232 | nor a sendto without a destination |
| LoopLaws.EffectsAreAuthorized | src/supervisor/run.rs:796-852 | every broker effect follows, within its notification, a landed event that grants it and a later sign of life, and is the notification's first effect with no answer before it |
| LoopLaws.OneEffectPerNotification | src/supervisor/run.rs:665-855 | two effects are separated by the receipt of another notification |
| LoopLaws.ContinueFollowsAllow | src/supervisor/run.rs:1376-1385 | a call is let run only after a landed event granting it, or when the filter could not have raised it, and never also performed |
| LoopLaws.FilterAndLoopCompose | src/sandbox/filter.rs:170-267 | when running a program built for the shipped tables on each notification notifies, no call is let run without a granting event on record first |
| LoopLaws.SuccessIsEarned | src/supervisor/run.rs:1025-1042 | a success or a descriptor is sent only after an effect of the same notification |
| LoopLaws.OneAnswerPerNotification | src/supervisor/run.rs:450-458 | after an answer that went through, or found its target gone, the next belongs to a later notification |
| LoopLaws.NoneIsPassedOver | src/supervisor/run.rs:1636-1658 | before the next notification is received, this one has been answered or its caller found dead |
| LoopLaws.FailedAppendEndsRun | src/supervisor/run.rs:1648-1657 | after a failed append there is at most giving up, one EIO and the kill |
| LoopLaws.BrokenOnlyTearsDown | src/supervisor/run.rs:1648-1657 | the same after any failure of the infrastructure |
| LoopLaws.DroppedIsSilent | src/supervisor/run.rs:819-825 | once the caller is known dead there is no record, effect or answer for its notification, only operands given back |
| LoopLaws.DroppedEventExactlyWhenRecordedFirst | src/supervisor/run.rs:796-825 | a dropped notification has an event on record exactly when the death was seen after its append; then the run enforces, the call is brokered and the event grants it |
| LoopLaws.RecordedThenDroppedExactlyWhen | src/supervisor/run.rs:819-825 | after any append of any run, the caller can still be found dead exactly when the call is brokered and the event grants it |
| LoopLaws.DroppedEventCanStand | src/supervisor/run.rs:819-825 | in every enforcing run, an allowed unlink of any pinned file whose caller dies after the append leaves a granting event with no effect and no answer |
| LoopLaws.DroppedEventWitness | src/supervisor/run.rs:283 | one such run, with a policy and a call spelled out |
| LoopLaws.TokensConserved | src/supervisor/broker.rs:540-572 | tokens issued are tokens consumed plus tokens live, as multisets, at every point of an unbroken run |
| LoopLaws.NothingLeftPinned | src/supervisor/run.rs:695-852 | between notifications every token issued has been consumed exactly as often as issued |
| LoopLaws.IssuedTokensAreFree | src/supervisor/broker.rs:647-648 | no token is issued while it is still out |
| LoopLaws.FactsAreBracketed | src/supervisor/run.rs:540-618 | every read behind an event lies between two ID_VALID answers for the same notification that said its caller was alive |
| LoopLaws.PromptedExactlyForAsks | src/supervisor/run.rs:384-417 | before an event there is exactly one prompt, listing exactly the asks, if the run is attended and there are any, and otherwise none |
| LoopLaws.AllowedIffEveryAccessIs | src/supervisor/run.rs:764-794 | a readable brokered call is allowed exactly when every access of every operand is allowed or an ask under the one approval |
| LoopLaws.EventSpeaksForResponse | src/supervisor/run.rs:419-448 | an event's own words grant the action exactly when the answer is allow |
| LoopLaws.LiveWasPinned | src/supervisor/run.rs:695-749 | a live token's operand was pinned under it in the notification in hand |
| LoopLaws.CommitsAreCovered | src/supervisor/run.rs:833-852 | end to end: each access a commit takes to each operand was, at the identity pinned for it in the same notification, allowed by the policy or approved in a prompt on the log that lists it, and the kernel hull of the same policy covers it |
| CallLaws.CommitsPassTheKernel | docs/design/syscalls.md:70-95 | end to end with the kernel: every right it looks for when the broker commits is held at or above the operand, but for the source of a hard link between directories, where that holds exactly when the policy asks for creating or deleting there |
| LoopLaws.TransmissionsAreCovered | src/supervisor/run.rs:1334-1338 | each transmission was allowed, or approved in a prompt on the log that lists it, for the destination its bytes name; the kernel hull grants the port, and the loaded rules let it pass unless it is port 0 |
| LoopLaws.ReadableCallsAreDecided | src/supervisor/run.rs:560-611 | a readable filesystem call is decided by policy unless it is `creat` or an `openat2` with an undersized structure |
| LoopLaws.CreatIsRefused | src/supervisor/run.rs:370-372 | `creat` is refused without a fact in every mode |
| CallLaws.KnownFromLog | src/supervisor/run.rs:462-528 | whatever is known of a notification was read in it: paths, bytes, flags, walks, pins and refusals are those of its own events |
| CallLaws.CrossControlEvent | src/supervisor/run.rs:1188-1215 | a cross-process call is denied by the tree exactly when enforcing and its target, by register, is not zero, not the caller and not found by a walk from the root |
| CallLaws.CrossControlStaysInTree | src/supervisor/run.rs:1197-1204 | enforcing, such a call is let run only within the tree |
| CallLaws.CreationEvent | src/supervisor/run.rs:1109-1177 | process creation is allowed, but for a `clone3` of implausible size or with unreadable flags; the flags recorded are those passed |
| CallLaws.RefusedInEveryMode | src/supervisor/run.rs:466-503 | foreign and x32 entries and calls on the deny list are denied in every mode |
| CallLaws.ExecEvent | src/supervisor/run.rs:1045-1107 | an execution is the policy's word on the path as read and anchored, or denied because that could not be read |
| CallLaws.NetworkEvent | src/supervisor/run.rs:1217-1342 | a network call is the policy's word on the destination its address register holds, under the name the cache has for it; else it was not understood, for one of the reasons listed, and is denied or, recording only, allowed |
| CallLaws.NameRuleDecidesEvent | src/policy/engine.rs:242-253 | a first rule by host name decides every destination among the name's cached addresses on its port |
| CallLaws.FileEvent | src/supervisor/run.rs:612-855 | a file call's event names the paths as read, or when granted while enforcing the identities pinned; it is denied without a fact only for `creat`, an undersized `openat2` or an argument that could not be read |
| CallLaws.EvidenceIsTrue | src/supervisor/run.rs:951-981 | each entry of a two-path call's evidence is the policy's word on its access to the identity that the event names for its operand |
| CallLaws.PinnedIsTheCalls | src/supervisor/run.rs:695-749 | each path pinned is one of the call's as read, in order, under its follow and missing rules |
| CallLaws.CommitIsTheCall | src/supervisor/run.rs:827-852 | a commit performs the call with the parameters its registers say |
| CallLaws.TransmissionIsTheCall | src/supervisor/run.rs:1309-1338 | a transmission is the call: operation, address, payload and flags as read, on a duplicate of its descriptor |
| CallLaws.AnswerPassesResultOn | src/supervisor/run.rs:1025-1042 | the answer after an effect is its result: the value, the same errno, or the descriptor with close-on-exec exactly when the open asked for it |
| CallLaws.RefusalByCause | src/supervisor/run.rs:1020 | a denied call is answered ENOSYS, the errno of an operand that could not be pinned, or EACCES, by its cause |
| CallLaws.EnforcedIsNeverLetThrough | src/supervisor/run.rs:612-661 | while enforcing, no file or network call the filter can raise is answered Continue |
| Session.DecodeInvertsEncode | src/supervisor/session.rs:50-67 | exits and signal deaths, with or without a core, decode to themselves; nothing else decodes |
| Session.Serve | src/supervisor/session.rs:380 | the loop does a run accepted for the configuration given, and adds exactly its landed events to the trace |
| Session.RunSession | src/supervisor/session.rs:322-425 | with failure possible anywhere: what the loop does is a run of the configuration the caller asked for, and in enforce mode lets no file or network call through; the trace is run_start, exactly the landed events of that run, and at most run_end; a child, also one whose handshake then fails, exists only after run_start is durable, the report only after run_end is; an aborted loop leaves neither run_end nor report |
| Session.Conclude | src/supervisor/session.rs:382-425 | run_end is appended and durable before the report |
| Handshake.ExecveNotifies | src/sandbox/filter.rs:140 | the child's own execve is trapped by any program built for the shipped tables |
| Handshake.AgentOnlyBehindBoundary | src/sandbox/child.rs:80-155 | in every interleaving with any failures the agent runs only under a parent that returned to supervise it, and a parent does that only behind the filter, with the listener in hand, the ack received and, if asked for, Landlock applied; a failed spawn has no running agent and no open listener |
| Handshake.FailedSpawnEnds | src/supervisor/spawn.rs:149-188 | what becomes of every failed spawn in every continuation: reaped when the parent looks once the child is dead, returned unreaped when its wait fails before that, else still waiting |
| Handshake.ReapedExactlyWhen | src/supervisor/spawn.rs:147-188 | given five turns of the child and one of the parent, whose wait does not fail, a failed spawn is reaped exactly when it has not returned unreaped already and it had acked, or the child was dead or failed by itself |
| Handshake.SpawnCanHang | src/supervisor/spawn.rs:155-161 | it happens: the fd cannot be received from a live child, and then nothing moves whatever is scheduled |
| Handshake.StuckWithoutAck | src/sandbox/child.rs:123-125 | after a failure before the ack, a living child and its parent wait for each other exactly as long as no step of the child and no wait of the parent fails, and the child never gets past its hand-off |
| Handshake.AckedFailureIsReaped | src/supervisor/spawn.rs:180-184 | after a failure behind the ack, five turns of the child and one of the parent end with the child reaped |
| Handshake.UnreapedExactlyWhen | src/supervisor/spawn.rs:147-188 | over whole runs, an error returned without reaping comes exactly of failing to wrap the fd or of a wait that failed; then no agent runs and nobody can answer one |
| Handshake.AbandonedChildDies | src/supervisor/notify.rs:145-149 | a child left unreaped is never the agent and ends by itself within nine turns |
| Handshake.SpawnCanLeaveZombie | src/supervisor/spawn.rs:186 | it happens: wrapping fails with the boundary up, and the dead child stays unreaped whatever is scheduled |
| Handshake.NeverDeadlocked | src/supervisor/spawn.rs:149-188 | after any failure-free schedule the agent runs, or one of the two processes can move, or both wait for the loop, whose answer starts the agent |
| Handshake.HandshakeCompletes | src/supervisor/spawn.rs:149-188 | every failure-free schedule that lets child, parent and loop move in each of thirteen rounds ends with the agent running under supervision behind the whole boundary |
| Calendar.YearHoldsDay | src/recorder.rs:413 | the quotient chain finds the year of the era that holds the day |
| Calendar.StepInYear | src/recorder.rs:414-418 | the month formula walks the months of the calendar |
| Calendar.CivilFollowsCalendar | src/recorder.rs:409-420 | the date of the next day is the calendar successor of the date, for every day before or after the epoch (appendix C of RFC 3339) |
| Calendar.CivilCountsDays | src/recorder.rs:409-420 | the arithmetic inverts counting days from 1970-01-01 |
| Calendar.CivilIsValid | src/recorder.rs:409-420 | every result is a date of the calendar |
| Calendar.StampsOrderAsSeconds | src/recorder.rs:396-406 | for every two seconds before the year 10000, stamps order as strings exactly as the seconds they print |
| Cli.ParseRun | src/cli.rs:110-214 | the loop computes the parse the results below speak of, errors included |
| Cli.TakeValued | src/cli.rs:132-197 | one valued flag: kind, duplicates, missing values and where to go on |
| Cli.RenderingsParse | src/cli.rs:110-214 | any rendering of valid flags, in any order and either style, gives the arguments back |
| Cli.OnlyRenderingsParse | src/cli.rs:110-214 | and nothing else parses |
| Cli.ArgumentsAreAsGiven | src/cli.rs:110-197 | the arguments of a successful parse, read off its flags: each path the one given, and a spelled number of seconds that number |
| Cli.CommandFollowsFirstSeparator | src/cli.rs:202-205 | the command is exactly what follows the first separator |
| Cli.EndIsNeverReached | src/cli.rs:121-124 | after the initial search for a separator the end-of-input branch is unreachable |
| Cli.EmptyPathsPassWhenSeparate | src/cli.rs:132-197 | whatever was given before, an empty value is accepted exactly for a path flag not given yet with its value in a token of its own |
| Cli.EmptyPathExactlyWhenSeparate | src/cli.rs:132-175 | a successful parse has an empty policy path, or state directory, exactly when the flag stands before the first separator with an empty token behind it |
| Cli.TimeoutsRoundTrip | src/cli.rs:219-224 | every number of seconds in range can be spelled and is read back |

## Left out

- NotifyLoop.Supervisor.RunLoop: a run is observed over any finite number of polls; that the real loop need not end is not stated.
- Memory.ReadCstrCapped: addresses wrap at 64 bits as they do in a release build; a debug build would panic there.
- Kernel.ProcessInTree: states its result for a process table that holds still; in the loop the walk's answer is arbitrary.
- Decisions.FirstHostOf: only the first exact host with the address is offered to the policy, as in the source; a later exact rule for the same address is not consulted, and no claim is made that it is.
- Raw system calls, descriptor passing, ioctl encodings and struct layouts, other than socket addresses and `open_how`.
- Real path resolution: pinning an operand yields an arbitrary identity beneath the anchor or an errno; what `openat2`, `/proc` links and canonicalization do is not part of this model.
- Landlock.RulesetCoversFs: canonicalizing an anchor is the identity, as on a disk whose anchored paths hold no symbolic links; loading order and the failures of the system calls are not modelled, and rules emptied by masking count as rules without rights.
- CallLaws.CommitsPassTheKernel: a right is looked for at or above the operand's own path; where the kernel looks on the directory that holds an entry, HullChecks.GrantedExactlyWhenAskedFor gives the condition for that directory.
- What the kernel does with a filter, a ruleset or a signal beyond the rights it looks for, and the accepted race after a send.
- Non-UTF-8 paths: text is a sequence of characters and the lossy rendering is the identity.
- TOML and JSON, digests, host name lookup, random suffixes, clocks and event timestamps, the terminal prompt and its deadline, the wording of prompts.
- Number and address parsing of the standard library, which host rules take as parameters.
- Overflow of the trace sequence counter after 2^64 events.
- The residual strings of the hull, and the numeric values of the access-mask bits.
- Report rendering, preflight, measurement, the snapshot module, state-directory resolution, subcommand dispatch and attendance: folds and branches that would only add easy members.
- The handshake is a state machine over values rather than two imperative processes, so that every interleaving is a schedule; of the loop it knows one step, the answer to the agent's first execve.
