/** What may be observed of the supervisor, and the reference monitor that says, event by event,
    what it may do next. The monitor knows the history of the notification in hand and nothing
    of the handlers' control flow. */
module Protocol {
  import opened Wrappers
  import opened Vocabulary
  import opened Syscalls
  import opened Recorder
  import opened Invocations
  import opened Decisions
  import Bits
  import F = Facts
  import Filter
  import Host
  import P = Policy
  import Sockaddr
  import Text

  const EIO: nat := 5
  const EACCES: nat := 13
  const ENOSYS: nat := 38

  const I32_MAX: nat := 0x7fff_ffff
  const SOCKADDR_CAP: nat := 128
  const NETWORK_PAYLOAD_CAP: nat := 65535
  const CLONE_ARGS_MIN_SIZE: nat := 8
  const CLONE_ARGS_MAX_SIZE: nat := 88

  datatype Call = Call(id: nat, pid: nat, data: Filter.Data)

  type Notification = c: Call | |c.data.args| == 6
    witness Call(0, 0, Filter.Data(0, 0, [0, 0, 0, 0, 0, 0]))

  // ----- families -----

  datatype Family =
    | Foreign
    | AlwaysDenied
    | FileSystem(shape: F.FsShape)
    | Execution(arg: F.PathArg)
    | Creation
    | Network
    | CrossControl
    | Unmediated

  function FamilyOf(n: Notification): (f: Family)
    ensures f.FileSystem? ==> F.ShapeOf(n.data.nr) == Some(f.shape)
    ensures f.Execution? ==> f.arg.Valid()
  {
    var nr := n.data.nr;
    if n.data.arch != AUDIT_ARCH_X86_64 || Bits.And(nr, X32_SYSCALL_BIT) != 0 then Foreign
    else if nr in DENIED_RECORDED then AlwaysDenied
    else if F.ShapeOf(nr).Some? then FileSystem(F.ShapeOf(nr).value)
    else if nr == EXECVE then Execution(F.Cwd(0))
    else if nr == EXECVEAT then Execution(F.At(0, 1))
    else if nr == CLONE || nr == FORK || nr == VFORK || nr == CLONE3 then Creation
    else if nr == CONNECT || nr == SENDTO || nr == BIND then Network
    else if nr == PTRACE || nr == PROCESS_VM_READV || nr == PROCESS_VM_WRITEV then CrossControl
    else Unmediated
  }

  /** The installed filter can raise this notification. */
  predicate Raisable(n: Notification) {
    Filter.Traps(MEDIATED + DENIED_RECORDED, n.data)
  }

  // ----- events -----

  datatype DirAnchor = CwdAnchor | FdAnchor(fd: nat)

  /** What pinning a path found. */
  datatype Operand = Operand(identity: string, exists_: bool)

  datatype PrepareAnswer = Pinned(token: nat, operand: Operand) | Unpinned(errno: nat) | PrepareLost

  datatype BrokerResult = Value(value: int) | Fd | Errno(errno: nat)

  datatype NetworkOperation = Connect | Bind | SendTo

  datatype Response = Continue | Refuse(errno: nat) | Complete(value: int) | InjectFd(newfdFlags: nat)

  /** A send arrives, finds its target gone, or fails outright. */
  datatype Delivery = Delivered | Gone | SendFailed

  datatype Event =
    | Received(notification: Notification)
    | Validity(id: nat, alive: Option<bool>)
    | PathRead(pid: nat, addr: nat, text: Option<string>)
    | AnchorRead(pid: nat, anchor: DirAnchor, prefix: Option<string>)
    | BytesRead(pid: nat, addr: nat, len: nat, bytes: Option<seq<Octet>>)
    | WordRead(pid: nat, addr: nat, word: Option<nat>)
    | TreeWalked(root: nat, target: nat, inTree: Option<bool>)
    | Prompted(asks: seq<PendingAsk>, answer: AskResolution)
    | Appended(event: SyscallEvent, landed: bool)
    | Prepared(path: string, follow: bool, missing: bool, prepared: PrepareAnswer)
    | Released(token: nat, done: bool)
    | OpenCommitted(token: nat, flags: nat, mode: nat, result: Option<BrokerResult>)
    | MutationCommitted(primary: nat, secondary: Option<nat>, mutation: Mutation, result: Option<BrokerResult>)
    | Duplicated(pid: nat, fd: nat, error: Option<nat>)
    | Transmitted(operation: NetworkOperation, address: seq<Octet>,
        payload: seq<Octet>, flags: nat, result: Option<BrokerResult>)
    | Sent(id: nat, response: Response, delivery: Delivery)
    | GaveUp
    | Killed

  /** The requests that make the broker act on the world. */
  predicate IsEffect(e: Event) {
    e.OpenCommitted? || e.MutationCommitted? || e.Transmitted?
  }

  // ----- the history of one notification -----

  /** What has been learned about the call. */
  datatype Known = Known(
    // The path arguments read, in order, each anchored as far as its anchor was readable.
    texts: seq<string>,
    // The last of them needs no anchor lookup any more.
    anchored: bool,
    bytes: seq<Option<seq<Octet>>>,
    word: Option<Option<nat>>,
    inTree: Option<bool>,
    // A path or structure argument could not be read.
    failed: bool,
    operands: seq<(nat, Operand)>,
    // The errno an operand could not be pinned with.
    refused: Option<nat>)

  /** What has been done about it. */
  datatype History = History(
    known: Known,
    // ID_VALID has said alive.
    vouched: bool,
    // Child memory has been read since.
    unconfirmed: bool,
    answer: Option<AskResolution>,
    // The tokens the broker holds.
    live: map<nat, Operand>,
    recorded: Option<SyscallEvent>,
    // ID_VALID has said alive after the record.
    confirmed: bool,
    duplicated: bool,
    // An effect has been requested.
    acted: bool,
    outcome: Option<BrokerResult>,
    died: bool,
    sent: bool)

  const NOTHING: Known := Known([], true, [], None, None, false, [], None)

  function Fresh(): History {
    History(NOTHING, false, false, None, map[], None, false, false, false, None, false, false)
  }

  /** Nothing is left to do. */
  predicate Done(h: History) {
    (h.sent || h.died) && h.live == map[]
  }

  // ----- gathering -----

  function PathArgs(n: Notification): (args: seq<F.PathArg>)
    ensures forall i :: 0 <= i < |args| ==> args[i].Valid()
    ensures |args| <= 2 && (FamilyOf(n).FileSystem? || FamilyOf(n).Execution? ==> |args| > 0)
  {
    match FamilyOf(n)
    case FileSystem(shape) => [shape.path] + (match shape.dest case Some(dest) => [dest] case None => [])
    case Execution(arg) => [arg]
    case _ => []
  }

  /** Where a relative path argument is anchored. */
  function AnchorOf(n: Notification, arg: F.PathArg): DirAnchor
    requires arg.Valid()
  {
    match arg.dirfdArg
    case Some(i) => if Word32(n.data.args[i]) != F.AT_FDCWD then FdAnchor(Word32(n.data.args[i])) else CwdAnchor
    case None => CwdAnchor
  }

  /** `PathBuf::join` with a relative path. */
  function Joined(prefix: string, path: string): string {
    if prefix == "" || prefix[|prefix| - 1] == '/' then prefix + path else prefix + "/" + path
  }

  predicate NeedsAnchor(arg: F.PathArg, text: string) {
    arg.anchor && !Text.Absolute(text)
  }

  predicate PathsDone(n: Notification, k: Known) {
    |k.texts| == |PathArgs(n)| && k.anchored
  }

  /** The call passes an `open_how` large enough to read. */
  predicate PassesHow(n: Notification) {
    n.data.nr == OPENAT2 && n.data.args[3] >= OPEN_HOW_SIZE
  }

  predicate FsGathered(n: Notification, k: Known) {
    k.failed || (PathsDone(n, k) && (PassesHow(n) ==> |k.bytes| == 1))
  }

  /** What the filesystem call asks for, if everything it passed could be read and makes sense. */
  function Invocation(n: Notification, k: Known): Option<(seq<FsAccess>, FsInvocation)>
    requires FamilyOf(n).FileSystem?
  {
    var args := n.data.args;
    if k.failed || !FsGathered(n, k) then None
    else
      match FamilyOf(n).shape.access
      case Fixed(list) =>
        (match MutationOf(n.data.nr, args, k.texts[0]) case Some(m) => Some((list, Mutate(m))) case None => None)
      case OpenFlags(arg) =>
        Some((F.OpenAccess(args[arg]), Open(args[arg], OpenMode(n.data.nr, args), None)))
      case OpenHow(arg) =>
        if args[3] < OPEN_HOW_SIZE || |k.bytes| != 1 || k.bytes[0].None? || |k.bytes[0].value| < OPEN_HOW_SIZE then None
        else
          var inv := OpenOfHow(args[3], k.bytes[0].value);
          Some((F.OpenAccess(inv.flags), inv))
  }

  // ----- network and process facts -----

  function AddrArg(n: Notification): nat { if n.data.nr == SENDTO then 4 else 1 }

  function LenArg(n: Notification): nat { if n.data.nr == SENDTO then 5 else 2 }

  predicate BadLength(n: Notification) { n.data.args[LenArg(n)] > SOCKADDR_CAP }

  /** The payload travels through the broker. */
  predicate CarriesPayload(c: Config, n: Notification) {
    n.data.nr == SENDTO && c.mode == Enforce
  }

  predicate PayloadFits(n: Notification) { n.data.args[2] <= NETWORK_PAYLOAD_CAP }

  function NetworkReads(c: Config, n: Notification): nat {
    if BadLength(n) then 0 else if CarriesPayload(c, n) && PayloadFits(n) then 2 else 1
  }

  function Destination(c: Config, n: Notification, k: Known): Option<(Host.Ip, nat)> {
    if BadLength(n) || |k.bytes| != NetworkReads(c, n) || k.bytes[0].None? then None
    else if CarriesPayload(c, n) && (!PayloadFits(n) || k.bytes[1].None?) then None
    else Sockaddr.Parse(k.bytes[0].value)
  }

  /** The fixed-size read that comes next, if any. */
  function NextBytes(c: Config, n: Notification, k: Known): Option<(nat, nat)> {
    var args := n.data.args;
    match FamilyOf(n)
    case FileSystem(_) =>
      if PassesHow(n) && PathsDone(n, k) && !k.failed && k.bytes == []
      then Some((args[2], HowReadSize(c.mode, args[3]))) else None
    case Network =>
      if |k.bytes| >= NetworkReads(c, n) then None
      else if k.bytes == [] then Some((args[AddrArg(n)], args[LenArg(n)]))
      else Some((args[1], args[2]))
    case _ => None
  }

  /** `clone3` passes its flags in memory, behind a size that must be plausible. */
  predicate BadCloneSize(n: Notification) {
    n.data.nr == CLONE3 && !(CLONE_ARGS_MIN_SIZE <= n.data.args[1] <= CLONE_ARGS_MAX_SIZE)
  }

  function TargetPid(n: Notification): nat {
    if n.data.nr == PTRACE then Word32(n.data.args[1]) else Word32(n.data.args[0])
  }

  predicate OwnTarget(n: Notification) {
    TargetPid(n) == 0 || TargetPid(n) == n.pid
  }

  // ----- operands, requests and the decision -----

  /** The lexical paths to pin; a symlink's target is content, not an operand. */
  function OperandInputs(k: Known, inv: FsInvocation): seq<string> {
    if IsSymlink(inv) && |k.texts| > 0 then k.texts[1..] else k.texts
  }

  function RequestsOn(identity: string, access: seq<FsAccess>): (r: seq<P.Request>)
    ensures |r| == |access|
  {
    seq(|access|, i requires 0 <= i < |access| => P.Fs(identity, [access[i]]))
  }

  /** One single-access request for every access every pinned operand must carry. */
  function OperandRequests(operands: seq<(nat, Operand)>, access: seq<FsAccess>, inv: FsInvocation): seq<P.Request> {
    if operands == [] then []
    else
      RequestsOn(operands[0].1.identity, PrimaryAccess(inv, access))
      + (if |operands| == 1 then []
         else RequestsOn(operands[1].1.identity, SecondaryAccess(inv, operands[1].1.exists_)))
  }

  /** What the notification asks of the policy, as far as it is known. */
  function Requests(c: Config, n: Notification, k: Known): seq<P.Request> {
    match FamilyOf(n)
    case FileSystem(_) =>
      (match Invocation(n, k)
       case None => []
       case Some((access, inv)) =>
         if c.mode == RecordOnly then [P.Fs(k.texts[0], access)]
         else if k.refused.Some? then []
         else OperandRequests(k.operands, access, inv))
    case Execution(_) => if k.failed || !PathsDone(n, k) then [] else [P.Exec(k.texts[0])]
    case Network =>
      (match Destination(c, n, k)
       case None => []
       case Some((ip, port)) => [P.Net(ip, ResolvedHostname(c, ip), port)])
    case _ => []
  }

  /** The answer that settles the asks, if there are any. */
  function Resolution(c: Config, n: Notification, k: Known, answer: Option<AskResolution>): Option<AskResolution>
    requires PolicyLoaded(c)
  {
    if AsksOf(c, Requests(c, n, k)) == [] then None
    else if c.attendance == Attendance.Unattended then Some(AskResolution.Unattended)
    else answer
  }

  function ByPolicyOf(c: Config, n: Notification, k: Known, answer: Option<AskResolution>): Resolved
    requires PolicyLoaded(c)
  {
    Verdict(JudgeAll(c, Requests(c, n, k)), Resolution(c, n, k, answer))
  }

  function DecisionOf(c: Config, n: Notification, k: Known, answer: Option<AskResolution>): Resolved
    requires PolicyLoaded(c)
  {
    match FamilyOf(n)
    case Foreign => Fixed(Deny, ForeignAbi)
    case AlwaysDenied => Fixed(Deny, if n.data.nr == PIDFD_GETFD then PidfdGetfd else IoUring)
    case FileSystem(_) =>
      if Invocation(n, k).None? then Fixed(Deny, MemoryRead)
      else if k.refused.Some? then Fixed(Deny, Realization)
      else ByPolicyOf(c, n, k, answer)
    case Execution(_) => if k.failed then Fixed(Deny, MemoryRead) else ByPolicyOf(c, n, k, answer)
    case Creation =>
      if BadCloneSize(n) || k.word == Some(None) then Fixed(Deny, MemoryRead)
      else Fixed(Allow, if c.mode == RecordOnly then RECORD_ONLY else ProcessCreation)
    case Network =>
      if Destination(c, n, k).Some? then ByPolicyOf(c, n, k, answer)
      else if c.mode == RecordOnly then Fixed(Allow, RECORD_ONLY)
      else Fixed(Deny, MemoryRead)
    case CrossControl =>
      if c.mode == RecordOnly then Fixed(Allow, RECORD_ONLY)
      else if OwnTarget(n) || k.inTree == Some(true) then Fixed(Allow, ProcessTree)
      else Fixed(Deny, ProcessTreeDeny)
    case Unmediated => Fixed(Deny, MemoryRead)
  }

  // ----- the event -----

  function FsFact(c: Config, k: Known, access: seq<FsAccess>, inv: FsInvocation): Fact
    requires |k.texts| > 0
  {
    var secondText := if |k.texts| > 1 then Some(k.texts[1]) else None;
    if c.mode == RecordOnly || k.refused.Some? || k.operands == [] then Fact.Fs(k.texts[0], access, secondText)
    else if IsSymlink(inv) then Fact.Fs(k.texts[0], access, Some(k.operands[0].1.identity))
    else Fact.Fs(k.operands[0].1.identity, access, if |k.operands| > 1 then Some(k.operands[1].1.identity) else None)
  }

  function FactOf(c: Config, n: Notification, k: Known): Fact {
    match FamilyOf(n)
    case FileSystem(_) =>
      (match Invocation(n, k) case Some((access, inv)) => FsFact(c, k, access, inv) case None => Raw)
    case Execution(_) => if k.failed || k.texts == [] then Raw else Fact.Exec(k.texts[0])
    case Creation =>
      if BadCloneSize(n) || k.word == Some(None) then Raw
      else if n.data.nr == CLONE then Process(Some(n.data.args[0]))
      else if n.data.nr == CLONE3 && k.word.Some? then Process(k.word.value)
      else Process(None)
    case Network => (match Destination(c, n, k) case Some((ip, port)) => Fact.Net(ip, port) case None => Raw)
    case CrossControl => CrossProcess(TargetPid(n))
    case _ => Raw
  }

  /** The evidence of each operand of a brokered two-path call. */
  function OperandEvidence(c: Config, n: Notification, k: Known, answer: Option<AskResolution>)
    : Option<seq<FsOperandDecision>>
    requires PolicyLoaded(c)
  {
    if !FamilyOf(n).FileSystem? || c.mode == RecordOnly || k.refused.Some?
       || Invocation(n, k).None? || k.operands == [] then None
    else
      var (access, inv) := Invocation(n, k).value;
      var resolution := Resolution(c, n, k, answer);
      var first := PrimaryAccess(inv, access);
      var firstEvals := JudgeAll(c, RequestsOn(k.operands[0].1.identity, first));
      if IsSymlink(inv) then Some(Evidence(DestOperand, first, firstEvals, resolution))
      else if |k.operands| == 1 then None
      else
        var second := SecondaryAccess(inv, k.operands[1].1.exists_);
        var secondEvals := JudgeAll(c, RequestsOn(k.operands[1].1.identity, second));
        Some(Evidence(PathOperand, first, firstEvals, resolution)
             + Evidence(DestOperand, second, secondEvals, resolution))
  }

  function EventOf(c: Config, n: Notification, k: Known, answer: Option<AskResolution>): SyscallEvent
    requires PolicyLoaded(c)
  {
    var d := DecisionOf(c, n, k, answer);
    SyscallEvent(n.pid, if FamilyOf(n).Foreign? then "foreign_abi" else F.Name(n.data.nr), FactOf(c, n, k),
                 d.event, d.ask, d.rule, d.wouldDeny, OperandEvidence(c, n, k, answer))
  }

  /** Everything the event rests on has been learned. */
  predicate Gathered(c: Config, n: Notification, k: Known) {
    match FamilyOf(n)
    case Foreign => true
    case AlwaysDenied => true
    case FileSystem(_) =>
      && FsGathered(n, k)
      && (c.mode == Enforce && Invocation(n, k).Some? && k.refused.None? ==>
            |k.operands| == |OperandInputs(k, Invocation(n, k).value.1)| > 0)
    case Execution(_) => k.failed || PathsDone(n, k)
    case Creation => n.data.nr == CLONE3 && !BadCloneSize(n) ==> k.word.Some?
    case Network => !Filter.ConnectedSend(n.data) && |k.bytes| == NetworkReads(c, n)
    case CrossControl => OwnTarget(n) || k.inTree.Some?
    case Unmediated => false
  }

  /** The facts of the call come out of child memory. */
  predicate TouchesMemory(n: Notification) {
    match FamilyOf(n)
    case FileSystem(_) => true
    case Execution(_) => true
    case Creation => n.data.nr == CLONE3 && !BadCloneSize(n)
    case Network => !BadLength(n)
    case _ => false
  }

  /** The event can be decided and recorded: it rests on nothing read from a caller that has not
      been seen alive since, and an operand that was not pinned leaves none pinned. */
  predicate Ready(c: Config, n: Notification, h: History) {
    && Gathered(c, n, h.known)
    && (TouchesMemory(n) ==> h.vouched && !h.unconfirmed)
    && (h.known.refused.Some? ==> h.live == map[])
  }

  // ----- effects and the response -----

  /** An allow is realized by the broker instead of by letting the call run. */
  predicate Brokered(c: Config, n: Notification) {
    c.mode == Enforce && (FamilyOf(n).FileSystem? || FamilyOf(n).Network?)
  }

  /** The broker may act: the event is on record as an allow, and the caller was alive since. */
  predicate MayAct(c: Config, n: Notification, h: History)
    requires PolicyLoaded(c)
  {
    && Brokered(c, n) && h.recorded.Some? && DecisionOf(c, n, h.known, h.answer).response == Allow
    && h.confirmed && !h.acted && h.outcome.None? && Active(h)
  }

  function Unsupported(n: Notification, k: Known): Option<nat> {
    if FamilyOf(n).FileSystem? && Invocation(n, k).Some? && Invocation(n, k).value.1.Open?
    then Invocation(n, k).value.1.unsupported
    else None
  }

  /** Tokens are given back exactly when no commit will consume them. */
  predicate MayRelease(c: Config, n: Notification, h: History)
    requires PolicyLoaded(c)
  {
    || h.died
    || (h.recorded.None? && h.known.refused.Some?)
    || (h.recorded.Some? && DecisionOf(c, n, h.known, h.answer).response != Allow)
    || (MayAct(c, n, h) && Unsupported(n, h.known).Some?)
  }

  predicate BadDescriptor(c: Config, n: Notification, h: History)
    requires PolicyLoaded(c)
  {
    MayAct(c, n, h) && FamilyOf(n).Network? && n.data.args[0] > I32_MAX
  }

  function NetworkOperationOf(n: Notification): NetworkOperation {
    if n.data.nr == CONNECT then Connect else if n.data.nr == BIND then Bind else SendTo
  }

  function ResponseTo(n: Notification, k: Known, result: BrokerResult): Response {
    match result
    case Value(value) => Complete(value)
    case Errno(errno) => Refuse(errno)
    case Fd =>
      var cloexec := FamilyOf(n).FileSystem? && Invocation(n, k).Some? && Invocation(n, k).value.1.Open?
                     && F.Has(Invocation(n, k).value.1.flags, O_CLOEXEC);
      InjectFd(if cloexec then O_CLOEXEC else 0)
  }

  /** The one response the history calls for, once it does. */
  function ResponseOf(c: Config, n: Notification, h: History): Option<Response>
    requires PolicyLoaded(c)
  {
    if h.recorded.None? || h.live != map[] then None
    else if FamilyOf(n).Foreign? || FamilyOf(n).AlwaysDenied? then Some(Refuse(ENOSYS))
    else if DecisionOf(c, n, h.known, h.answer).response != Allow
      then Some(Refuse(if h.known.refused.Some? then h.known.refused.value else EACCES))
    else if !Brokered(c, n) then Some(Continue)
    else if !h.confirmed then None
    else if Unsupported(n, h.known).Some? then Some(Refuse(Unsupported(n, h.known).value))
    else if h.outcome.Some? then Some(ResponseTo(n, h.known, h.outcome.value))
    else None
  }

  // ----- the monitor -----

  datatype Stage =
    | Idle
    | Handling(n: Notification, h: History)
    // The infrastructure failed under the notification.
    | Broken(id: nat)
    // Tearing down, with at most one last response to attempt.
    | Aborting(pending: Option<nat>)
    | Down
    | Rejected

  predicate Active(h: History) {
    !h.died && !h.sent
  }

  /** Nothing has been recorded or pinned yet, so facts may still be gathered. */
  predicate Gathering(h: History) {
    Active(h) && h.recorded.None? && h.answer.None? && h.known.operands == [] && h.known.refused.None?
  }

  /** The monitor lets event `e` happen in the history `h` of notification `n`. */
  ghost predicate Admits(c: Config, n: Notification, h: History, e: Event)
    requires PolicyLoaded(c)
  {
    var k := h.known;
    match e
    case Validity(id, _) =>
      && Active(h) && id == n.id
      && (h.recorded.Some? ==> !h.confirmed && Brokered(c, n) && DecisionOf(c, n, k, h.answer).response == Allow)
    case PathRead(pid, addr, _) =>
      && Gathering(h) && h.vouched && pid == n.pid && !k.failed && k.anchored && k.bytes == []
      && |k.texts| < |PathArgs(n)| && addr == n.data.args[PathArgs(n)[|k.texts|].pathArg]
    case AnchorRead(pid, anchor, _) =>
      && Gathering(h) && pid == n.pid && !k.anchored && 0 < |k.texts| <= |PathArgs(n)|
      && anchor == AnchorOf(n, PathArgs(n)[|k.texts| - 1])
    case BytesRead(pid, addr, len, bytes) =>
      && Gathering(h) && h.vouched && pid == n.pid
      && NextBytes(c, n, k) == Some((addr, len)) && (bytes.Some? ==> |bytes.value| == len)
    case WordRead(pid, addr, _) =>
      && Gathering(h) && h.vouched && pid == n.pid && FamilyOf(n).Creation? && n.data.nr == CLONE3
      && !BadCloneSize(n) && k.word.None? && addr == n.data.args[0]
    case TreeWalked(root, target, _) =>
      && Gathering(h) && FamilyOf(n).CrossControl? && k.inTree.None? && !OwnTarget(n)
      && root == c.rootPid && target == TargetPid(n)
    case Prepared(path, follow, missing, prepared) =>
      && Active(h) && h.recorded.None? && h.answer.None? && Brokered(c, n)
      && h.vouched && !h.unconfirmed && NextPin(n, k) == Some((path, follow, missing))
      && (prepared.Pinned? ==> prepared.token !in h.live && Text.Absolute(prepared.operand.identity))
    case Prompted(asks, _) =>
      && Active(h) && h.recorded.None? && h.answer.None? && Ready(c, n, h) && c.attendance == Attended
      && asks == AsksOf(c, Requests(c, n, k)) != []
    case Appended(event, _) =>
      && Active(h) && h.recorded.None? && Ready(c, n, h)
      && (AsksOf(c, Requests(c, n, k)) != [] && c.attendance == Attended ==> h.answer.Some?)
      && event == EventOf(c, n, k, h.answer)
    case Released(token, _) => token in h.live && MayRelease(c, n, h)
    case OpenCommitted(token, flags, mode, _) =>
      && MayAct(c, n, h) && Committable(n, k, Open(flags, mode, None))
      && |k.operands| == 1 && token == k.operands[0].0 && h.live == map[token := k.operands[0].1]
    case MutationCommitted(primary, secondary, mutation, _) =>
      && MayAct(c, n, h) && Committable(n, k, Mutate(mutation))
      && 0 < |k.operands| <= 2 && primary == k.operands[0].0
      && if |k.operands| == 1 then secondary == None && h.live == map[primary := k.operands[0].1]
         else secondary == Some(k.operands[1].0) && k.operands[1].0 != primary
              && h.live == map[primary := k.operands[0].1, k.operands[1].0 := k.operands[1].1]
    case Duplicated(pid, fd, _) =>
      && MayAct(c, n, h) && FamilyOf(n).Network? && !h.duplicated && pid == n.pid
      && fd == n.data.args[0] <= I32_MAX
    case Transmitted(operation, address, payload, flags, _) =>
      && MayAct(c, n, h) && FamilyOf(n).Network? && h.duplicated && Destination(c, n, k).Some?
      && operation == NetworkOperationOf(n) && Some(address) == k.bytes[0]
      && (if CarriesPayload(c, n) then Some(payload) == k.bytes[1] else payload == [])
      && flags == (if n.data.nr == SENDTO then Word32(n.data.args[3]) else 0)
    case Sent(id, response, _) =>
      && Active(h) && id == n.id
      && if !Raisable(n) && h == Fresh() then response == Continue else ResponseOf(c, n, h) == Some(response)
    case Received(_) => false
    case GaveUp => false
    case Killed => false
  }

  /** The operand to pin next and how. */
  function NextPin(n: Notification, k: Known): Option<(string, bool, bool)> {
    if !FamilyOf(n).FileSystem? || Invocation(n, k).None? || k.refused.Some? then None
    else
      var inv := Invocation(n, k).value.1;
      var inputs := OperandInputs(k, inv);
      var (follow, missing, secondFollow, secondMissing) := PrepareModes(inv);
      if |k.operands| >= |inputs| then None
      else if k.operands == [] then Some((inputs[0], follow, missing))
      else Some((inputs[|k.operands|], secondFollow, secondMissing))
  }

  predicate Committable(n: Notification, k: Known, inv: FsInvocation) {
    FamilyOf(n).FileSystem? && Invocation(n, k).Some? && Invocation(n, k).value.1 == inv
  }

  /** The infrastructure itself failed in this event. */
  predicate Fails(e: Event) {
    match e
    case Validity(_, alive) => alive.None?
    case Prepared(_, _, _, prepared) => prepared.PrepareLost?
    case Appended(_, landed) => !landed
    case Released(_, done) => !done
    case OpenCommitted(_, _, _, result) => result.None?
    case MutationCommitted(_, _, _, result) => result.None?
    case Transmitted(_, _, _, _, result) => result.None?
    case Sent(_, _, delivery) => delivery.SendFailed?
    case _ => false
  }

  /** What is known after the event. */
  function Learn(n: Notification, k: Known, e: Event): Known {
    match e
    case PathRead(_, _, text) =>
      if text.None? || |k.texts| >= |PathArgs(n)| then k.(failed := true)
      else k.(texts := k.texts + [text.value], anchored := !NeedsAnchor(PathArgs(n)[|k.texts|], text.value))
    case AnchorRead(_, _, prefix) =>
      if prefix.None? || k.texts == [] then k.(anchored := true)
      else
        var last := |k.texts| - 1;
        k.(anchored := true, texts := k.texts[..last] + [Joined(prefix.value, k.texts[last])])
    case BytesRead(_, _, _, bytes) => k.(bytes := k.bytes + [bytes], failed := k.failed || bytes.None?)
    case WordRead(_, _, word) => k.(word := Some(word))
    case TreeWalked(_, _, inTree) => k.(inTree := Some(inTree == Some(true)))
    case Prepared(_, _, _, prepared) =>
      (match prepared
       case Pinned(token, operand) => k.(operands := k.operands + [(token, operand)])
       case Unpinned(errno) => k.(refused := Some(errno))
       case PrepareLost => k)
    case _ => k
  }

  /** The tokens held after the event. */
  function Live(live: map<nat, Operand>, e: Event): map<nat, Operand> {
    match e
    case Prepared(_, _, _, Pinned(token, operand)) => live[token := operand]
    case Released(token, _) => live - {token}
    case OpenCommitted(_, _, _, _) => map[]
    case MutationCommitted(_, _, _, _) => map[]
    case _ => live
  }

  /** What an effect, or the failure to set one up, came to. */
  function Came(outcome: Option<BrokerResult>, e: Event): Option<BrokerResult> {
    match e
    case OpenCommitted(_, _, _, result) => result
    case MutationCommitted(_, _, _, result) => result
    case Transmitted(_, _, _, _, result) => result
    case Duplicated(_, _, Some(errno)) => Some(Errno(errno))
    case _ => outcome
  }

  predicate SaysAlive(e: Event, alive: bool) {
    e.Validity? && e.alive == Some(alive)
  }

  predicate ReadsMemory(e: Event) {
    e.PathRead? || e.BytesRead? || e.WordRead?
  }

  /** The history after an event that did not fail. */
  function Extend(n: Notification, h: History, e: Event): History {
    History(
      Learn(n, h.known, e),
      h.vouched || (SaysAlive(e, true) && h.recorded.None?),
      ReadsMemory(e) || (h.unconfirmed && !(SaysAlive(e, true) && h.recorded.None?)),
      if e.Prompted? then Some(e.answer) else h.answer,
      Live(h.live, e),
      if e.Appended? then Some(e.event) else h.recorded,
      h.confirmed || (SaysAlive(e, true) && h.recorded.Some?),
      h.duplicated || (e.Duplicated? && e.error.None?),
      h.acted || IsEffect(e),
      Came(h.outcome, e),
      h.died || SaysAlive(e, false),
      h.sent || e.Sent?)
  }

  ghost function Step(c: Config, s: Stage, e: Event): Stage
    requires PolicyLoaded(c)
  {
    match s
    case Idle =>
      if e.Received? && Runnable(c) then Handling(e.notification, Fresh())
      else if e.GaveUp? then Aborting(None)
      else Rejected
    case Handling(n, h) =>
      if e.Received? then (if Done(h) then Handling(e.notification, Fresh()) else Rejected)
      else if e.GaveUp? then
        (if Done(h) then Aborting(None) else if BadDescriptor(c, n, h) then Aborting(Some(n.id)) else Rejected)
      else if !Admits(c, n, h, e) then Rejected
      else if Fails(e) then Broken(n.id)
      else Handling(n, Extend(n, h, e))
    case Broken(id) => if e.GaveUp? then Aborting(Some(id)) else Rejected
    case Aborting(Some(id)) => if e.Sent? && e.id == id && e.response == Refuse(EIO) then Aborting(None) else Rejected
    case Aborting(None) => if e.Killed? then Down else Rejected
    case Down => Rejected
    case Rejected => Rejected
  }

  /** Where a run that did `log` stands. */
  ghost function Watch(c: Config, log: seq<Event>): Stage
    requires PolicyLoaded(c)
  {
    if log == [] then Idle else Step(c, Watch(c, log[..|log| - 1]), log[|log| - 1])
  }

  ghost predicate Accepted(c: Config, log: seq<Event>)
    requires PolicyLoaded(c)
  {
    Watch(c, log) != Rejected
  }

  /** The events of a run that reached the trace, in order. */
  ghost function Landed(log: seq<Event>): seq<SyscallEvent> {
    if log == [] then [] else AndThen(Landed(log[..|log| - 1]), log[|log| - 1])
  }

  ghost function AndThen(landed: seq<SyscallEvent>, e: Event): seq<SyscallEvent> {
    if e.Appended? && e.landed then landed + [e.event] else landed
  }

  /** The record of a run as it happens. */
  class Journal {
    ghost const config: Config
    ghost var log: seq<Event>
    ghost var stage: Stage
    ghost var landed: seq<SyscallEvent>

    ghost predicate Valid()
      reads this
    {
      PolicyLoaded(config) && stage == Watch(config, log) && landed == Landed(log)
    }

    /** Exactly event `e` has been added. */
    twostate predicate Noted(e: Event)
      requires old(Valid())
      reads this
    {
      && Valid() && log == old(log) + [e] && stage == Step(config, old(stage), e)
      && landed == AndThen(old(landed), e)
    }

    constructor (ghost config: Config)
      requires PolicyLoaded(config)
      ensures Valid() && this.config == config && log == [] && stage == Idle && landed == []
    {
      this.config := config;
      log, stage, landed := [], Idle, [];
    }

    ghost method Note(e: Event)
      requires Valid()
      modifies this
      ensures Noted(e)
    {
      log := log + [e];
      assert log[..|log| - 1] == old(log);
      stage := Step(config, stage, e);
      landed := AndThen(landed, e);
    }
  }
}
