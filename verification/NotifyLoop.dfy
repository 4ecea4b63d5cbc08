/** The notify decision loop: one notification is received, decided, recorded and answered before
    the next. */
module NotifyLoop {
  import opened Wrappers
  import opened Vocabulary
  import opened Syscalls
  import opened Recorder
  import opened Invocations
  import opened Decisions
  import opened Protocol
  import Bits
  import Br = Broker
  import F = Facts
  import Filter
  import Host
  import K = Kernel
  import P = Policy
  import Sockaddr
  import Text

  datatype Handled = Responded | Dropped

  datatype RunError =
    | TraceWrite
    | NotifyFailed
    | BrokerFailed
    | BadFd
    | EnforceWithoutPolicy
    | MissingBroker

  /** `RunConfig::validate`: what is missing for an enforce run. */
  function Validate(c: Config): (missing: Option<RunError>)
    ensures missing.None? <==> Runnable(c)
    ensures missing == Some(EnforceWithoutPolicy) <==> c.mode == Enforce && c.policy.None?
  {
    if c.mode == Enforce && c.policy.None? then Some(EnforceWithoutPolicy)
    else if c.mode == Enforce && !c.broker then Some(MissingBroker)
    else None
  }

  /** What one poll of the notify fd comes to. */
  datatype Poll =
    | Interrupted
    | PollFailed
    | Arrived(n: Notification)
    | RecvInterrupted
    | RecvGone
    | RecvFailed
    | HungUp
    | Quiet

  // ----- about the handlers -----

  /** The families cover the tables: what belongs to none of them is never raised. */
  lemma UntabledIsSilent(n: Notification)
    requires FamilyOf(n).Unmediated?
    ensures !Raisable(n)
  {}

  /** How many operands a readable call has, and that each of them is decided on something. */
  lemma OperandsOfCall(n: Notification, k: Known, access: seq<FsAccess>, inv: FsInvocation)
    requires FamilyOf(n).FileSystem? && Invocation(n, k) == Some((access, inv))
    ensures FsGathered(n, k) && |k.texts| == |PathArgs(n)|
    ensures PrimaryAccess(inv, access) != []
    ensures IsSymlink(inv) ==> |k.texts| == 2
    ensures |OperandInputs(k, inv)| == if !IsSymlink(inv) && |k.texts| == 2 then 2 else 1
    ensures |k.texts| == 2 && !IsSymlink(inv) ==> TwoOperands(inv)
    ensures inv.Open? ==> |k.texts| == 1
  {
  }

  /** ID_VALID is asked while facts are gathered, and once more before a recorded allow is
      realized. */
  ghost predicate MayAsk(c: Config, n: Notification, h: History)
    requires PolicyLoaded(c)
  {
    h.recorded.Some? ==> !h.confirmed && Brokered(c, n) && DecisionOf(c, n, h.known, h.answer).response == Allow
  }

  /** The history after the caller has been seen alive. */
  ghost function Vouched(h: History): History {
    if h.recorded.Some? then h.(confirmed := true) else h.(vouched := true, unconfirmed := false)
  }

  /** Not recorded, asked about or answered yet, and nothing read is unconfirmed. */
  ghost predicate Unrecorded(h: History) {
    Active(h) && h.recorded.None? && h.answer.None? && h.vouched && !h.unconfirmed && Untouched(h)
  }

  /** The operands pinned are live under these tokens, and nothing else is. */
  ghost predicate Holding(h: History, primary: nat, secondary: Option<nat>) {
    && 0 < |h.known.operands| <= 2 && primary == h.known.operands[0].0
    && if |h.known.operands| == 1 then secondary == None && h.live == map[primary := h.known.operands[0].1]
       else
         && secondary == Some(h.known.operands[1].0) && secondary.value != primary
         && h.live == map[primary := h.known.operands[0].1, h.known.operands[1].0 := h.known.operands[1].1]
  }

  lemma ReleasingLeavesNothing(h: History, primary: nat, secondary: Option<nat>)
    requires Holding(h, primary, secondary)
    ensures primary in h.live
    ensures if secondary.None? then h.live - {primary} == map[]
            else secondary.value in h.live - {primary} && h.live - {primary} - {secondary.value} == map[]
  {}

  lemma PinsDoNotChangeTheCall(n: Notification, k: Known, k': Known)
    requires FamilyOf(n).FileSystem? && k' == k.(operands := k'.operands, refused := k'.refused)
    ensures Invocation(n, k') == Invocation(n, k) && FsGathered(n, k') == FsGathered(n, k)
  {}

  lemma InvocationIsGathered(n: Notification, k: Known)
    requires FamilyOf(n).FileSystem? && Invocation(n, k).Some?
    ensures FsGathered(n, k) && !k.failed
  {}

  /** A brokered call whose operands are pinned. */
  ghost predicate OneOperand(c: Config, n: Notification, k: Known, access: seq<FsAccess>, inv: FsInvocation) {
    && FamilyOf(n).FileSystem? && c.mode == Enforce && Invocation(n, k) == Some((access, inv))
    && k.refused.None? && |k.operands| == 1
  }

  ghost predicate BothOperands(c: Config, n: Notification, k: Known, access: seq<FsAccess>, inv: FsInvocation) {
    && FamilyOf(n).FileSystem? && c.mode == Enforce && Invocation(n, k) == Some((access, inv))
    && k.refused.None? && |k.operands| == 2 && !IsSymlink(inv)
    && PrimaryAccess(inv, access) != [] && SecondaryAccess(inv, k.operands[1].1.exists_) != []
  }

  lemma RequestsOfOne(c: Config, n: Notification, k: Known, access: seq<FsAccess>, inv: FsInvocation)
    requires PolicyLoaded(c) && OneOperand(c, n, k, access, inv)
    ensures Requests(c, n, k) == RequestsOn(k.operands[0].1.identity, PrimaryAccess(inv, access))
    ensures AsksOf(c, Requests(c, n, k)) == [] + AsksOf(c, Requests(c, n, k))
  {
    hide Invocation, PrimaryAccess, Judge;
  }

  lemma RequestsOfTwo(c: Config, n: Notification, k: Known, access: seq<FsAccess>, inv: FsInvocation)
    requires PolicyLoaded(c) && BothOperands(c, n, k, access, inv)
    ensures var first := RequestsOn(k.operands[0].1.identity, PrimaryAccess(inv, access));
            var second := RequestsOn(k.operands[1].1.identity, SecondaryAccess(inv, k.operands[1].1.exists_));
            Requests(c, n, k) == first + second
            && AsksOf(c, Requests(c, n, k)) == [] + AsksOf(c, first) + AsksOf(c, second)
  {
    hide Invocation, PrimaryAccess, SecondaryAccess, Judge;
    AsksOfBoth(c, RequestsOn(k.operands[0].1.identity, PrimaryAccess(inv, access)),
               RequestsOn(k.operands[1].1.identity, SecondaryAccess(inv, k.operands[1].1.exists_)));
  }

  lemma RulingOnOne(c: Config, n: Notification, k: Known, answer: Option<AskResolution>, access: seq<FsAccess>,
                    inv: FsInvocation)
    requires PolicyLoaded(c) && OneOperand(c, n, k, access, inv)
    ensures var first := PrimaryAccess(inv, access);
            var evals := JudgeAll(c, RequestsOn(k.operands[0].1.identity, first));
            var resolution := Resolution(c, n, k, answer);
            && DecisionOf(c, n, k, answer) == Verdict(evals, resolution)
            && OperandEvidence(c, n, k, answer) ==
                if IsSymlink(inv) then Some(Evidence(DestOperand, first, evals, resolution)) else None
  {
    hide Invocation, PrimaryAccess, Judge, Requests, Verdict;
    RequestsOfOne(c, n, k, access, inv);
  }

  lemma RulingOnTwo(c: Config, n: Notification, k: Known, answer: Option<AskResolution>, access: seq<FsAccess>,
                    inv: FsInvocation)
    requires PolicyLoaded(c) && BothOperands(c, n, k, access, inv)
    ensures var first, second := PrimaryAccess(inv, access), SecondaryAccess(inv, k.operands[1].1.exists_);
            var evals := JudgeAll(c, RequestsOn(k.operands[0].1.identity, first));
            var others := JudgeAll(c, RequestsOn(k.operands[1].1.identity, second));
            var resolution := Resolution(c, n, k, answer);
            var one, two := Verdict(evals, resolution), Verdict(others, resolution);
            && DecisionOf(c, n, k, answer) ==
               (if one.response != Allow then one else if two.response != Allow then two else one)
            && OperandEvidence(c, n, k, answer) ==
               Some(Evidence(PathOperand, first, evals, resolution) + Evidence(DestOperand, second, others, resolution))
  {
    hide Invocation, PrimaryAccess, SecondaryAccess, Judge, Requests, Verdict;
    RequestsOfTwo(c, n, k, access, inv);
    var first := RequestsOn(k.operands[0].1.identity, PrimaryAccess(inv, access));
    var second := RequestsOn(k.operands[1].1.identity, SecondaryAccess(inv, k.operands[1].1.exists_));
    assert JudgeAll(c, first + second) == JudgeAll(c, first) + JudgeAll(c, second);
    VerdictOfTwo(JudgeAll(c, first), JudgeAll(c, second), Resolution(c, n, k, answer));
  }

  lemma {:induction false} AsksOfBoth(c: Config, a: seq<P.Request>, b: seq<P.Request>)
    requires PolicyLoaded(c)
    ensures AsksOf(c, a + b) == AsksOf(c, a) + AsksOf(c, b)
  {
    hide Judge;
    if b == [] {
      assert a + b == a;
    } else {
      var last := |b| - 1;
      assert (a + b)[..|a + b| - 1] == a + b[..last];
      AsksOfBoth(c, a, b[..last]);
    }
  }

  lemma PathReadIsAdmitted(c: Config, n: Notification, h: History, arg: F.PathArg, text: Option<string>)
    requires PolicyLoaded(c) && Gathering(h) && h.vouched && !h.known.failed && h.known.anchored && h.known.bytes == []
    requires |h.known.texts| < |PathArgs(n)| && arg == PathArgs(n)[|h.known.texts|]
    ensures Step(c, Handling(n, h), PathRead(n.pid, n.data.args[arg.pathArg], text)) ==
            Handling(n, h.(unconfirmed := true, known :=
              if text.None? then h.known.(failed := true)
              else h.known.(texts := h.known.texts + [text.value], anchored := !NeedsAnchor(arg, text.value))))
  {
    hide PathArgs;
  }

  lemma AnchorReadIsAdmitted(c: Config, n: Notification, h: History, arg: F.PathArg, prefix: Option<string>)
    requires PolicyLoaded(c) && Gathering(h) && !h.known.anchored && 0 < |h.known.texts| <= |PathArgs(n)|
    requires arg == PathArgs(n)[|h.known.texts| - 1]
    ensures var last := |h.known.texts| - 1;
            Step(c, Handling(n, h), AnchorRead(n.pid, AnchorOf(n, arg), prefix)) ==
            Handling(n, h.(known := h.known.(anchored := true, texts :=
              if prefix.None? then h.known.texts
              else h.known.texts[..last] + [Joined(prefix.value, h.known.texts[last])])))
  {
    hide PathArgs, Joined, AnchorOf;
  }

  lemma SendIsAdmitted(c: Config, n: Notification, h: History, response: Response, d: Delivery)
    requires PolicyLoaded(c) && Active(h)
    requires ResponseOf(c, n, h) == Some(response) || (!Raisable(n) && h == Fresh() && response == Continue)
    ensures Step(c, Handling(n, h), Sent(n.id, response, d)) ==
            if d.SendFailed? then Broken(n.id) else Handling(n, h.(sent := true))
  {
    hide DecisionOf, Invocation, Brokered, Unsupported, Raisable;
  }

  lemma DuplicationIsAdmitted(c: Config, n: Notification, h: History, error: Option<nat>)
    requires PolicyLoaded(c) && MayAct(c, n, h) && !h.duplicated && FamilyOf(n).Network? && n.data.args[0] <= I32_MAX
    ensures Step(c, Handling(n, h), Duplicated(n.pid, n.data.args[0], error)) ==
            Handling(n, if error.None? then h.(duplicated := true) else h.(outcome := Some(Errno(error.value))))
  {
    hide MayAct;
  }

  lemma TransmissionIsAdmitted(c: Config, n: Notification, h: History, sockaddr: seq<Octet>, payload: seq<Octet>,
                               result: Option<BrokerResult>)
    requires PolicyLoaded(c) && MayAct(c, n, h) && h.duplicated && FamilyOf(n).Network?
    requires Destination(c, n, h.known).Some? && h.known.bytes[0] == Some(sockaddr)
    requires if CarriesPayload(c, n) then h.known.bytes[1] == Some(payload) else payload == []
    ensures var operation := if n.data.nr == CONNECT then Connect else if n.data.nr == BIND then Bind else SendTo;
            var flags := if n.data.nr == SENDTO then Word32(n.data.args[3]) else 0;
            Step(c, Handling(n, h), Transmitted(operation, sockaddr, payload, flags, result)) ==
            if result.None? then Broken(n.id) else Handling(n, h.(acted := true, outcome := result))
  {
    hide MayAct;
  }

  lemma OpenIsAdmitted(c: Config, n: Notification, h: History, inv: FsInvocation, primary: nat,
                       result: Option<BrokerResult>)
    requires PolicyLoaded(c) && MayAct(c, n, h) && inv.Open? && inv.unsupported.None?
    requires Committable(n, h.known, inv) && Holding(h, primary, None)
    ensures Step(c, Handling(n, h), OpenCommitted(primary, inv.flags, inv.mode, result)) ==
            if result.None? then Broken(n.id) else Handling(n, h.(live := map[], acted := true, outcome := result))
  {
    hide MayAct, Committable;
  }

  lemma MutationIsAdmitted(c: Config, n: Notification, h: History, inv: FsInvocation, primary: nat,
                           secondary: Option<nat>, result: Option<BrokerResult>)
    requires PolicyLoaded(c) && MayAct(c, n, h) && inv.Mutate? && Committable(n, h.known, inv)
    requires Holding(h, primary, secondary)
    ensures Step(c, Handling(n, h), MutationCommitted(primary, secondary, inv.mutation, result)) ==
            if result.None? then Broken(n.id) else Handling(n, h.(live := map[], acted := true, outcome := result))
  {
    hide MayAct, Committable;
  }

  /** The history after an attempt to pin. */
  ghost function Pinning(h: History, r: PrepareAnswer): History {
    match r
    case Pinned(token, operand) =>
      h.(known := h.known.(operands := h.known.operands + [(token, operand)]), live := h.live[token := operand])
    case Unpinned(errno) => h.(known := h.known.(refused := Some(errno)))
    case PrepareLost => h
  }

  lemma PinIsAdmitted(c: Config, n: Notification, h: History, path: string, follow: bool, missing: bool,
                      r: PrepareAnswer)
    requires PolicyLoaded(c) && Active(h) && h.recorded.None? && h.answer.None? && Brokered(c, n)
    requires h.vouched && !h.unconfirmed && NextPin(n, h.known) == Some((path, follow, missing))
    requires r.Pinned? ==> r.token !in h.live && Text.Absolute(r.operand.identity)
    ensures Step(c, Handling(n, h), Prepared(path, follow, missing, r)) ==
            if r.PrepareLost? then Broken(n.id) else Handling(n, Pinning(h, r))
  {
    hide DecisionOf, Requests, AsksOf, EventOf, Invocation, Ready, NextPin, Brokered;
  }

  /** These are the call's paths, access and invocation. */
  ghost predicate Trusted(n: Notification, k: Known, g: (string, Option<string>, seq<FsAccess>, FsInvocation))
  {
    && FamilyOf(n).FileSystem? && |k.texts| == |PathArgs(n)| && g.0 == k.texts[0]
    && g.1 == (if |k.texts| > 1 then Some(k.texts[1]) else None)
    && Invocation(n, k) == Some((g.2, g.3))
  }

  lemma OpenOfHowOpens(size: nat, bytes: seq<Octet>)
    requires |bytes| >= OPEN_HOW_SIZE
    ensures OpenOfHow(size, bytes).Open?
  {}

  /** Nothing has been done about the call yet. */
  ghost predicate Untouched(h: History) {
    !h.confirmed && !h.duplicated && !h.acted && h.outcome.None?
  }

  lemma ConnectedSendIsSilent(n: Notification)
    requires FamilyOf(n).Network? && Filter.ConnectedSend(n.data)
    ensures !Raisable(n)
  {}

  lemma SingleRequest(c: Config, request: P.Request)
    requires PolicyLoaded(c)
    ensures AsksOf(c, [request]) ==
            if Judge(c, request).decision == Ask then [PendingAsk(request, Judge(c, request).matched)] else []
    ensures JudgeAll(c, [request]) == [Judge(c, request)]
  {
    hide Judge;
    assert [request][..0] == [];
    assert AsksOf(c, []) == [];
  }

  lemma SingleVerdict(eval: P.Evaluation, resolution: Option<AskResolution>)
    ensures Verdict([eval], resolution) == Finalize(eval, resolution)
  {}

  /** The trace holds the preamble and then these syscall events, in order. */
  ghost predicate Traces(lines: seq<Line>, preamble: seq<EventBody>, landed: seq<SyscallEvent>) {
    && |lines| == |preamble| + |landed|
    && (forall i :: 0 <= i < |preamble| ==> lines[i].body == preamble[i])
    && (forall i :: 0 <= i < |landed| ==> lines[|preamble| + i].body == Syscall(landed[i]))
  }

  // ----- the supervisor -----

  /** What the handlers share: the run's inputs, the kernel, the broker and the one writer. */
  class Supervisor {
    const config: Config
    const kernel: K.Notifier
    const broker: Br.Client
    const writer: TraceWriter
    ghost const journal: Journal
    /** What was in the trace before the loop. */
    ghost const preamble: seq<EventBody>

    constructor (config: Config, kernel: K.Notifier, broker: Br.Client, writer: TraceWriter,
                 ghost journal: Journal, ghost preamble: seq<EventBody>)
      ensures this.config == config && this.kernel == kernel && this.broker == broker && this.writer == writer
      ensures this.journal == journal && this.preamble == preamble
    {
      this.config, this.kernel, this.broker, this.writer := config, kernel, broker, writer;
      this.journal, this.preamble := journal, preamble;
    }

    /** Everything is connected, every observation so far was admitted, and the trace holds
        exactly the events that were noted as landed. */
    ghost predicate Sound()
      reads this, journal, broker, broker.state, writer
    {
      && kernel.journal == journal && broker.journal == journal && journal.config == config
      && journal.Valid() && broker.Ready() && writer.Valid()
      && Traces(writer.lines, preamble, journal.landed)
      && journal.stage != Rejected
    }

    /** In the middle of a notification: the trace is whole, and the broker holds just the tokens
        the history says. */
    ghost predicate At(n: Notification, h: History)
      reads this, journal, broker, broker.state, writer
    {
      && Sound() && journal.stage == Handling(n, h)
      && !writer.torn && broker.state.held == h.live
      && |h.known.operands| <= 2 && broker.state.window <= (if h.known.operands == [] then 2 else |h.known.operands|)
    }

    /** How handling ends: answered or dropped with nothing left over, or a failure that leaves
        nothing to do but to give up. */
    ghost predicate Finished(n: Notification, r: Result<Handled, RunError>)
      reads this, journal, broker, broker.state, writer
    {
      && Sound()
      && match r
         case Ok(handled) =>
           && journal.stage.Handling? && At(n, journal.stage.h) && Done(journal.stage.h)
           && (handled == Responded <==> journal.stage.h.sent)
         case Err(_) =>
           journal.stage == Broken(n.id)
           || (journal.stage.Handling? && journal.stage.n == n && BadDescriptor(config, n, journal.stage.h))
    }

    lemma GivesUp(n: Notification, error: RunError)
      requires Sound() && journal.stage == Broken(n.id)
      ensures Finished(n, Err(error))
    {
      hide Sound;
    }

    // ----- responding and recording -----

    /** Sends the one response the history calls for; a target that is gone needs none. */
    method Respond(n: Notification, response: Response, ghost h: History) returns (r: Result<Handled, RunError>)
      requires At(n, h) && Active(h) && h.live == map[]
      requires ResponseOf(config, n, h) == Some(response) || (!Raisable(n) && h == Fresh() && response == Continue)
      modifies journal
      ensures Finished(n, r) && (r.Ok? ==> r.value == Responded)
    {
      hide Step, Watch, Landed, ResponseOf, Raisable, BadDescriptor, Traces, Br.Later;
      var d := kernel.Send(n.id, response);
      SendIsAdmitted(config, n, h, response, d);
      if d.SendFailed? {
        return Err(NotifyFailed);
      }
      r := Ok(Responded);
    }

    /** Appends the event; record precedes respond, and a failed append ends the run. */
    method Record(n: Notification, event: SyscallEvent, ghost h: History) returns (r: Result<(), RunError>)
      requires At(n, h) && Active(h) && h.recorded.None? && Ready(config, n, h)
      requires AsksOf(config, Requests(config, n, h.known)) != [] && config.attendance == Attended ==> h.answer.Some?
      requires event == EventOf(config, n, h.known, h.answer)
      modifies journal, writer
      ensures r.Ok? ==> At(n, h.(recorded := Some(event)))
      ensures r.Err? ==> Finished(n, Err(r.error))
    {
      hide DecisionOf, Requests, AsksOf, EventOf, Invocation, Watch, Landed, Ready;
      var appended := writer.Append(Syscall(event));
      journal.Note(Appended(event, appended.Ok?));
      if appended.Err? {
        return Err(TraceWrite);
      }
      r := Ok(());
    }

    /** Records a decision no ask is part of and answers it. */
    method RecordAndRespond(n: Notification, name: string, fact: Fact, decision: Resolved, response: Response,
                            ghost h: History)
      returns (r: Result<Handled, RunError>)
      requires At(n, h) && Active(h) && h.recorded.None? && h.live == map[] && Ready(config, n, h)
      requires AsksOf(config, Requests(config, n, h.known)) != [] && config.attendance == Attended ==> h.answer.Some?
      requires SyscallEvent(n.pid, name, fact, decision.event, decision.ask, decision.rule, decision.wouldDeny, None)
               == EventOf(config, n, h.known, h.answer)
      requires ResponseOf(config, n, h.(recorded := Some(EventOf(config, n, h.known, h.answer)))) == Some(response)
      modifies journal, writer
      ensures Finished(n, r) && (r.Ok? ==> r.value == Responded)
    {
      hide DecisionOf, Requests, AsksOf, EventOf, Invocation, Watch, Landed, Ready, ResponseOf;
      var event := SyscallEvent(n.pid, name, fact, decision.event, decision.ask, decision.rule,
                                decision.wouldDeny, None);
      var recorded := Record(n, event, h);
      if recorded.Err? {
        return Err(recorded.error);
      }
      r := Respond(n, response, h.(recorded := Some(event)));
    }

    // ----- gathering -----

    /** Asks whether the caller is still there. */
    method StillAlive(n: Notification, ghost h: History) returns (alive: Option<bool>, ghost h': History)
      requires At(n, h) && Active(h) && MayAsk(config, n, h)
      modifies journal
      ensures match alive
              case None => Finished(n, Err(NotifyFailed))
              case Some(false) => At(n, h') && h' == h.(died := true)
              case Some(true) => At(n, h') && h' == Vouched(h)
    {
      hide DecisionOf, Requests, AsksOf, EventOf, Invocation, Watch, Landed, Ready, ResponseOf;
      alive := kernel.IdValid(n.id);
      h' := if alive.None? then h else journal.stage.h;
    }

    /** Handling ends if the caller is gone, or if that cannot be told. */
    method Confirm(n: Notification, ghost h: History)
      returns (ended: Option<Result<Handled, RunError>>, ghost h': History)
      requires At(n, h) && Active(h) && h.live == map[] && MayAsk(config, n, h)
      modifies journal
      ensures if ended.Some? then Finished(n, ended.value) else At(n, h') && h' == Vouched(h)
    {
      hide Step, DecisionOf, Watch, Landed, BadDescriptor;
      var alive;
      alive, h' := StillAlive(n, h);
      match alive {
        case None => ended := Some(Err(NotifyFailed));
        case Some(false) => ended := Some(Ok(Dropped));
        case Some(true) => ended := None;
      }
    }

    /** Reads one path argument and anchors it: absolute values and symlink targets stand, a
        relative value is prefixed with the caller's directory if that can be read. */
    method ReadAnchored(n: Notification, arg: F.PathArg, ghost h: History)
      returns (r: Option<string>, ghost h': History)
      requires At(n, h) && Gathering(h) && h.vouched && !h.known.failed && h.known.anchored && h.known.bytes == []
      requires |h.known.texts| < |PathArgs(n)| && arg == PathArgs(n)[|h.known.texts|]
      modifies journal
      ensures At(n, h')
      ensures h' == h.(unconfirmed := true,
                       known := if r.None? then h.known.(failed := true)
                                else h.known.(texts := h.known.texts + [r.value], anchored := true))
    {
      hide Step, Watch, Landed, BadDescriptor, Traces, Br.Later, PathArgs;
      var text := kernel.ReadPath(n.pid, n.data.args[arg.pathArg]);
      PathReadIsAdmitted(config, n, h, arg, text);
      h' := journal.stage.h;
      if text.None? {
        return None, h';
      }
      if Text.Absolute(text.value) || !arg.anchor {
        return text, h';
      }
      var prefix := kernel.DirPrefix(n.pid, AnchorOf(n, arg));
      AnchorReadIsAdmitted(config, n, h', arg, prefix);
      h' := journal.stage.h;
      r := Some(if prefix.Some? then Joined(prefix.value, text.value) else text.value);
    }

    /** Reads the flags word of a `clone3`. */
    method ReadCloneFlags(n: Notification, ghost h: History) returns (flags: Option<nat>, ghost h': History)
      requires At(n, h) && Gathering(h) && h.vouched && h.known.word.None?
      requires FamilyOf(n).Creation? && n.data.nr == CLONE3 && !BadCloneSize(n)
      modifies journal
      ensures At(n, h') && h' == h.(unconfirmed := true, known := h.known.(word := Some(flags)))
    {
      hide DecisionOf, Requests, AsksOf, EventOf, Invocation, Watch, Landed, Ready, ResponseOf;
      flags := kernel.ReadWord(n.pid, n.data.args[0]);
      h' := journal.stage.h;
    }

    /** Looks for a foreign target in the supervised tree; a walk that fails finds nothing. */
    method FindTarget(n: Notification, ghost h: History) returns (inTree: bool, ghost h': History)
      requires At(n, h) && Gathering(h) && FamilyOf(n).CrossControl? && h.known.inTree.None? && !OwnTarget(n)
      modifies journal
      ensures At(n, h') && h' == h.(known := h.known.(inTree := Some(inTree)))
    {
      hide DecisionOf, Requests, AsksOf, EventOf, Invocation, Watch, Landed, Ready, ResponseOf;
      var walked := kernel.InTree(config.rootPid, TargetPid(n));
      inTree := walked == Some(true);
      h' := journal.stage.h;
    }

    /** Reads the fixed-size argument that comes next. */
    method ReadArgument(n: Notification, addr: nat, len: nat, ghost h: History)
      returns (bytes: Option<seq<Octet>>, ghost h': History)
      requires At(n, h) && Gathering(h) && h.vouched && NextBytes(config, n, h.known) == Some((addr, len))
      requires len <= ABSOLUTE_READ_CAP
      modifies journal
      ensures bytes.Some? ==> |bytes.value| == len
      ensures At(n, h')
      ensures h' == h.(unconfirmed := true,
                      known := h.known.(bytes := h.known.bytes + [bytes], failed := h.known.failed || bytes.None?))
    {
      hide DecisionOf, Requests, AsksOf, EventOf, Invocation, Watch, Landed, Ready, ResponseOf, NextBytes;
      bytes := kernel.ReadBytes(n.pid, addr, len);
      h' := journal.stage.h;
    }

    // ----- deciding -----

    /** Settles one held syscall's asks with a single prompt; an unattended run never prompts. */
    method SettleAsks(n: Notification, asks: seq<PendingAsk>, ghost h: History)
      returns (r: Option<AskResolution>, ghost h': History)
      requires At(n, h) && Active(h) && h.recorded.None? && h.answer.None? && Ready(config, n, h)
      requires asks == AsksOf(config, Requests(config, n, h.known))
      modifies journal
      ensures At(n, h') && h' == h.(answer := h'.answer) && r == Resolution(config, n, h'.known, h'.answer)
      ensures asks != [] && config.attendance == Attended ==> h'.answer.Some?
    {
      hide DecisionOf, Requests, AsksOf, EventOf, Invocation, Watch, Landed, Ready, ResponseOf;
      h' := h;
      if asks == [] {
        return None, h';
      }
      if config.attendance == Attendance.Unattended {
        return Some(AskResolution.Unattended), h';
      }
      var answer: AskResolution := *;
      journal.Note(Prompted(asks, answer));
      h' := journal.stage.h;
      r := Some(answer);
    }

    /** Decides a single request. */
    method ResolveDecision(n: Notification, request: P.Request, ghost h: History)
      returns (decision: Resolved, ghost h': History)
      requires At(n, h) && Active(h) && h.recorded.None? && h.answer.None? && Ready(config, n, h)
      requires Requests(config, n, h.known) == [request]
      modifies journal
      ensures At(n, h') && h' == h.(answer := h'.answer) && decision == ByPolicyOf(config, n, h'.known, h'.answer)
      ensures AsksOf(config, [request]) != [] && config.attendance == Attended ==> h'.answer.Some?
    {
      hide DecisionOf, Requests, EventOf, Invocation, Watch, Landed, Ready, ResponseOf;
      var eval := Judge(config, request);
      var asks := if eval.decision == Ask then [PendingAsk(request, eval.matched)] else [];
      SingleRequest(config, request);
      var resolution;
      resolution, h' := SettleAsks(n, asks, h);
      decision := Finalize(eval, resolution);
      SingleVerdict(eval, resolution);
    }

    /** Lets an allowed call run, refuses any other. */
    function ContinueOrDeny(decision: Resolved): Response {
      if decision.response == Allow then Continue else Refuse(EACCES)
    }

    // ----- the families -----

    method HandleExec(n: Notification) returns (r: Result<Handled, RunError>)
      requires At(n, Fresh()) && FamilyOf(n).Execution?
      modifies journal, writer
      ensures Finished(n, r)
    {
      hide At, Sound, Finished, Step, Judge, JudgeAll, Verdict, Invocation, Destination;
      var name := if n.data.nr == EXECVE then "execve" else "execveat";
      var arg := if n.data.nr == EXECVE then F.Cwd(0) else F.At(0, 1);
      ghost var h: History;
      var ended;
      ended, h := Confirm(n, Fresh());
      if ended.Some? {
        return ended.value;
      }
      var binary;
      binary, h := ReadAnchored(n, arg, h);
      ended, h := Confirm(n, h);
      if ended.Some? {
        return ended.value;
      }
      if binary.None? {
        r := RecordAndRespond(n, name, Raw, Fixed(Deny, MemoryRead), Refuse(EACCES), h);
        return;
      }
      var decision;
      decision, h := ResolveDecision(n, P.Exec(binary.value), h);
      r := RecordAndRespond(n, name, Fact.Exec(binary.value), decision, ContinueOrDeny(decision), h);
    }

    method HandleCrossProcess(n: Notification) returns (r: Result<Handled, RunError>)
      requires At(n, Fresh()) && FamilyOf(n).CrossControl?
      modifies journal, writer
      ensures Finished(n, r)
    {
      hide At, Sound, Finished, Step, Judge, JudgeAll, Verdict, Invocation, Destination, F.Name;
      ghost var h := Fresh();
      var target := if n.data.nr == PTRACE then Word32(n.data.args[1]) else Word32(n.data.args[0]);
      var inTree := target == 0 || target == n.pid;
      if !inTree {
        inTree, h := FindTarget(n, h);
      }
      var decision :=
        if config.mode == RecordOnly then Fixed(Allow, RECORD_ONLY)
        else if inTree then Fixed(Allow, ProcessTree)
        else Fixed(Deny, ProcessTreeDeny);
      r := RecordAndRespond(n, F.Name(n.data.nr), CrossProcess(target), decision, ContinueOrDeny(decision), h);
    }

    method HandleProcess(n: Notification) returns (r: Result<Handled, RunError>)
      requires At(n, Fresh()) && FamilyOf(n).Creation?
      modifies journal, writer
      ensures Finished(n, r)
    {
      hide At, Sound, Finished, Step, Judge, JudgeAll, Verdict, Invocation, Destination, F.Name;
      var name := F.Name(n.data.nr);
      ghost var h := Fresh();
      var flags: Option<nat> := None;
      if n.data.nr == CLONE {
        flags := Some(n.data.args[0]);
      } else if n.data.nr == CLONE3 {
        var size := n.data.args[1];
        if !(CLONE_ARGS_MIN_SIZE <= size <= CLONE_ARGS_MAX_SIZE) {
          r := RecordAndRespond(n, name, Raw, Fixed(Deny, MemoryRead), Refuse(EACCES), h);
          return;
        }
        var ended;
        ended, h := Confirm(n, h);
        if ended.Some? {
          return ended.value;
        }
        flags, h := ReadCloneFlags(n, h);
        ended, h := Confirm(n, h);
        if ended.Some? {
          return ended.value;
        }
        if flags.None? {
          r := RecordAndRespond(n, name, Raw, Fixed(Deny, MemoryRead), Refuse(EACCES), h);
          return;
        }
      }
      var decision := Fixed(Allow, if config.mode == RecordOnly then RECORD_ONLY else ProcessCreation);
      r := RecordAndRespond(n, name, Process(flags), decision, Continue, h);
    }

    /** An undecodable destination: recorded without a fact, let through only by the camera. */
    method NetworkReadFailure(n: Notification, name: string, ghost h: History) returns (r: Result<Handled, RunError>)
      requires At(n, h) && Active(h) && h.recorded.None? && h.live == map[] && h.answer.None? && Ready(config, n, h)
      requires FamilyOf(n).Network? && name == F.Name(n.data.nr) && Destination(config, n, h.known).None?
      requires h.known.refused.None?
      modifies journal, writer
      ensures Finished(n, r) && (r.Ok? ==> r.value == Responded)
    {
      hide At, Sound, Finished, Step, Judge, JudgeAll, Verdict, Destination, Gathered, F.Name;
      var decision := if config.mode == RecordOnly then Fixed(Allow, RECORD_ONLY) else Fixed(Deny, MemoryRead);
      r := RecordAndRespond(n, name, Raw, decision, ContinueOrDeny(decision), h);
    }

    method HandleNetwork(n: Notification) returns (r: Result<Handled, RunError>)
      requires At(n, Fresh()) && FamilyOf(n).Network?
      modifies journal, writer, broker.state
      ensures Finished(n, r)
    {
      hide At, Sound, Finished, Step, Judge, JudgeAll, Verdict, F.Name, AsksOf, Sockaddr.Parse;
      var name := F.Name(n.data.nr);
      ghost var h := Fresh();
      if n.data.nr == SENDTO && n.data.args[4] == 0 {
        ConnectedSendIsSilent(n);
        r := Respond(n, Continue, h);
        return;
      }
      var addrArg := if n.data.nr == SENDTO then 4 else 1;
      var lenArg := if n.data.nr == SENDTO then 5 else 2;
      var len := n.data.args[lenArg];
      if len > SOCKADDR_CAP {
        r := NetworkReadFailure(n, name, h);
        return;
      }
      var ended;
      ended, h := Confirm(n, h);
      if ended.Some? {
        return ended.value;
      }
      var sockaddr;
      sockaddr, h := ReadArgument(n, n.data.args[addrArg], len, h);
      var payload: Option<seq<Octet>> := Some([]);
      if n.data.nr == SENDTO && config.mode == Enforce {
        if n.data.args[2] <= NETWORK_PAYLOAD_CAP {
          payload, h := ReadArgument(n, n.data.args[1], n.data.args[2], h);
        } else {
          payload := None;
        }
      }
      ended, h := Confirm(n, h);
      if ended.Some? {
        return ended.value;
      }
      if sockaddr.None? || payload.None? {
        r := NetworkReadFailure(n, name, h);
        return;
      }
      var destination := Sockaddr.Parse(sockaddr.value);
      if destination.None? {
        r := NetworkReadFailure(n, name, h);
        return;
      }
      r := DecideDestination(n, name, destination.value.0, destination.value.1, sockaddr.value, payload.value, h);
    }

    /** Decides, records and realizes a call to a known destination. */
    method DecideDestination(n: Notification, name: string, ip: Host.Ip, port: nat, sockaddr: seq<Octet>,
                             payload: seq<Octet>, ghost h: History)
      returns (r: Result<Handled, RunError>)
      requires At(n, h) && Active(h) && h.recorded.None? && h.live == map[] && h.answer.None? && Ready(config, n, h)
      requires FamilyOf(n).Network? && name == F.Name(n.data.nr)
      requires Destination(config, n, h.known) == Some((ip, port)) && h.known.refused.None?
      requires Untouched(h) && h.known.bytes[0] == Some(sockaddr)
      requires if CarriesPayload(config, n) then h.known.bytes[1] == Some(payload) else payload == []
      modifies journal, writer, broker.state
      ensures Finished(n, r)
    {
      hide At, Sound, Finished, Step, Judge, JudgeAll, Verdict, F.Name, Destination, Gathered, ResolvedHostname, AsksOf;
      ghost var h1: History;
      var decision;
      var hostname := ResolvedHostname(config, ip);
      decision, h1 := ResolveDecision(n, P.Net(ip, hostname, port), h);
      if config.mode == RecordOnly {
        r := RecordAndRespond(n, name, Fact.Net(ip, port), decision, ContinueOrDeny(decision), h1);
        return;
      }
      if decision.response != Allow {
        r := RecordAndRespond(n, name, Fact.Net(ip, port), decision, Refuse(EACCES), h1);
        return;
      }
      var event := SyscallEvent(n.pid, name, Fact.Net(ip, port), decision.event, decision.ask, decision.rule,
                                decision.wouldDeny, None);
      var recorded := Record(n, event, h1);
      if recorded.Err? {
        return Err(recorded.error);
      }
      h1 := h1.(recorded := Some(event));
      var ended;
      ended, h1 := Confirm(n, h1);
      if ended.Some? {
        return ended.value;
      }
      r := Transmit(n, sockaddr, payload, h1);
    }

    /** Takes a duplicate of the caller's socket. */
    method DuplicateSocket(n: Notification, ghost h: History) returns (error: Option<nat>, ghost h': History)
      requires At(n, h) && MayAct(config, n, h) && !h.duplicated && FamilyOf(n).Network? && n.data.args[0] <= I32_MAX
      modifies journal
      ensures At(n, h') && h' == if error.None? then h.(duplicated := true) else h.(outcome := Some(Errno(error.value)))
    {
      hide Step, Watch, Landed, MayAct, BadDescriptor, Traces, Br.Later;
      error := kernel.DuplicateFd(n.pid, n.data.args[0]);
      DuplicationIsAdmitted(config, n, h, error);
      h' := journal.stage.h;
    }

    /** Has the broker perform the network operation. */
    method Exchange(n: Notification, sockaddr: seq<Octet>, payload: seq<Octet>, ghost h: History)
      returns (result: Option<BrokerResult>, ghost h': History)
      requires At(n, h) && MayAct(config, n, h) && h.duplicated && FamilyOf(n).Network?
      requires Destination(config, n, h.known).Some? && h.known.bytes[0] == Some(sockaddr)
      requires if CarriesPayload(config, n) then h.known.bytes[1] == Some(payload) else payload == []
      modifies journal
      ensures if result.None? then Finished(n, Err(BrokerFailed))
              else At(n, h') && h' == h.(acted := true, outcome := result)
    {
      hide Step, Watch, Landed, MayAct, BadDescriptor, Traces, Br.Later, Destination, CarriesPayload;
      var operation := if n.data.nr == CONNECT then Connect else if n.data.nr == BIND then Bind else SendTo;
      var flags := if n.data.nr == SENDTO then Word32(n.data.args[3]) else 0;
      result := broker.Transmit(operation, sockaddr, payload, flags);
      TransmissionIsAdmitted(config, n, h, sockaddr, payload, result);
      if result.None? {
        return None, h;
      }
      h' := journal.stage.h;
    }

    /** Realizes a recorded allow on a duplicate of the caller's socket. */
    method Transmit(n: Notification, sockaddr: seq<Octet>, payload: seq<Octet>,
                    ghost h: History)
      returns (r: Result<Handled, RunError>)
      requires At(n, h) && MayAct(config, n, h) && !h.duplicated && h.live == map[] && FamilyOf(n).Network?
      requires Destination(config, n, h.known).Some? && h.known.bytes[0] == Some(sockaddr)
      requires if CarriesPayload(config, n) then h.known.bytes[1] == Some(payload) else payload == []
      modifies journal
      ensures Finished(n, r)
    {
      hide Step, DecisionOf, Destination, Invocation, Watch, Landed, Raisable;
      if n.data.args[0] > I32_MAX {
        return Err(BadFd);
      }
      hide At, Sound, Finished;
      ghost var h1: History;
      var error;
      error, h1 := DuplicateSocket(n, h);
      if error.Some? {
        r := Respond(n, Refuse(error.value), h1);
        return;
      }
      var result;
      result, h1 := Exchange(n, sockaddr, payload, h1);
      if result.None? {
        return Err(BrokerFailed);
      }
      r := Respond(n, AnswerOf(result.value, 0), h1);
    }

    /** The response that hands the broker's result to the caller. */
    function AnswerOf(result: BrokerResult, newfdFlags: nat): Response {
      match result
      case Value(value) => Complete(value)
      case Fd => InjectFd(newfdFlags)
      case Errno(errno) => Refuse(errno)
    }

    // ----- the filesystem families -----

    /** Reads the `open_how` of an `openat2`. */
    method ReadOpenHow(n: Notification, ghost h: History)
      returns (found: Option<(seq<FsAccess>, FsInvocation)>, ghost h': History)
      requires At(n, h) && Gathering(h) && h.vouched && FamilyOf(n).FileSystem? && n.data.nr == OPENAT2
      requires PathsDone(n, h.known) && !h.known.failed && h.known.bytes == []
      modifies journal
      ensures At(n, h')
      ensures h' == h.(unconfirmed := h'.unconfirmed,
                      known := h.known.(bytes := h'.known.bytes, failed := h'.known.failed))
      ensures h.unconfirmed ==> h'.unconfirmed
      ensures FsGathered(n, h'.known) && found == Invocation(n, h'.known)
    {
      hide At, Sound, Finished, Step, DecisionOf, Watch, Landed, Raisable, OpenOfHow, F.OpenAccess;
      h' := h;
      var size := n.data.args[3];
      if size < OPEN_HOW_SIZE {
        return None, h';
      }
      var bytes;
      bytes, h' := ReadArgument(n, n.data.args[2], HowReadSize(config.mode, size), h);
      if bytes.None? {
        return None, h';
      }
      var inv := OpenOfHow(size, bytes.value);
      OpenOfHowOpens(size, bytes.value);
      var access := F.OpenFlagsAccess(inv.flags);
      found := Some((access, inv));
    }

    /** The access requested and the invocation, once the paths are read. */
    method ReadAccess(n: Notification, shape: F.FsShape, path: string, ghost h: History)
      returns (found: Option<(seq<FsAccess>, FsInvocation)>, ghost h': History)
      requires At(n, h) && Gathering(h) && h.vouched && FamilyOf(n) == FileSystem(shape)
      requires PathsDone(n, h.known) && !h.known.failed && h.known.bytes == [] && path == h.known.texts[0]
      modifies journal
      ensures At(n, h')
      ensures h' == h.(unconfirmed := h'.unconfirmed,
                      known := h.known.(bytes := h'.known.bytes, failed := h'.known.failed))
      ensures h.unconfirmed ==> h'.unconfirmed
      ensures FsGathered(n, h'.known) && found == Invocation(n, h'.known)
    {
      hide At, Sound, Finished, Step, DecisionOf, Watch, Landed, Raisable, OpenOfHow, F.OpenAccess, MutationOf;
      h' := h;
      match shape.access {
        case Fixed(list) =>
          var m := MutationOf(n.data.nr, n.data.args, path);
          found := if m.Some? then Some((list, Mutate(m.value))) else None;
        case OpenFlags(arg) =>
          var flags := n.data.args[arg];
          var access := F.OpenFlagsAccess(flags);
          found := Some((access, Open(flags, OpenMode(n.data.nr, n.data.args), None)));
        case OpenHow(_) =>
          found, h' := ReadOpenHow(n, h);
      }
    }

    /** Everything a filesystem call passes, or none when it cannot be trusted. */
    method GatherFs(n: Notification, shape: F.FsShape, ghost h: History)
      returns (g: Option<(string, Option<string>, seq<FsAccess>, FsInvocation)>, ghost h': History)
      requires At(n, h) && h == Fresh().(vouched := true) && FamilyOf(n) == FileSystem(shape)
      modifies journal
      ensures At(n, h') && h' == h.(unconfirmed := true, known := h'.known)
      ensures FsGathered(n, h'.known) && h'.known.operands == [] && h'.known.refused.None?
      ensures if g.None? then Invocation(n, h'.known).None? else Trusted(n, h'.known, g.value)
    {
      hide At, Sound, Finished, Step, DecisionOf, Watch, Landed, Raisable, F.ShapeOf;
      var path;
      path, h' := ReadAnchored(n, shape.path, h);
      if path.None? {
        return None, h';
      }
      var dest: Option<string> := None;
      if shape.dest.Some? {
        dest, h' := ReadAnchored(n, shape.dest.value, h');
        if dest.None? {
          return None, h';
        }
      }
      var found;
      found, h' := ReadAccess(n, shape, path.value, h');
      g := if found.Some? then Some((path.value, dest, found.value.0, found.value.1)) else None;
    }

    /** Pins the next operand. */
    method Pin(n: Notification, path: string, follow: bool, missing: bool, ghost h: History)
      returns (r: PrepareAnswer, ghost h': History)
      requires At(n, h) && Active(h) && h.recorded.None? && h.answer.None? && Brokered(config, n)
      requires h.vouched && !h.unconfirmed && NextPin(n, h.known) == Some((path, follow, missing))
      requires |h.known.operands| <= 1 && (h.known.operands == [] <==> h.live == map[])
      modifies journal, broker.state
      ensures if r.PrepareLost? then Finished(n, Err(BrokerFailed)) else At(n, h') && h' == Pinning(h, r)
      ensures r.Pinned? ==> r.token !in h.live
    {
      hide Step, Watch, Landed, Brokered, NextPin, BadDescriptor;
      hide Br.Client.Ready, Br.BrokerState.Valid, Traces, PolicyLoaded, Br.ShareAnchor;
      hide DecisionOf, EventOf, Requests, AsksOf, Invocation, MayAct, ResponseOf, FamilyOf, OperandEvidence, FactOf;
      r := broker.PreparePath(path, follow, missing);
      PinIsAdmitted(config, n, h, path, follow, missing, r);
      h' := Pinning(h, r);
      hide Finished;
      if r.PrepareLost? {
        GivesUp(n, BrokerFailed);
      }
    }

    /** Gives a pinned operand back. */
    method Unpin(n: Notification, token: nat, ghost h: History) returns (done: bool, ghost h': History)
      requires At(n, h) && token in h.live && MayRelease(config, n, h)
      modifies journal, broker.state
      ensures if done then At(n, h') && h' == h.(live := h.live - {token}) else Finished(n, Err(BrokerFailed))
    {
      hide DecisionOf, Requests, AsksOf, EventOf, Invocation, Watch;
      hide Landed, Ready, Destination, ResponseOf, MayAct, BadDescriptor;
      hide MayRelease, NextBytes, NextPin, AnchorOf, Raisable, Committable, FamilyOf;
      done := broker.Release(token);
      h' := if done then journal.stage.h else h;
    }

    /** Gives every pinned operand back. */
    method UnpinAll(n: Notification, primary: nat, secondary: Option<nat>, ghost h: History)
      returns (done: bool, ghost h': History)
      requires At(n, h) && Holding(h, primary, secondary)
      requires MayRelease(config, n, h) && MayRelease(config, n, h.(live := h.live - {primary}))
      modifies journal, broker.state
      ensures if done then At(n, h') && h' == h.(live := map[]) else Finished(n, Err(BrokerFailed))
    {
      hide At, Sound, Finished, Step, MayRelease;
      ReleasingLeavesNothing(h, primary, secondary);
      done, h' := Unpin(n, primary, h);
      if done && secondary.Some? {
        done, h' := Unpin(n, secondary.value, h');
      }
    }

    /** Evaluates every required access of one operand, collecting the asks. */
    method EvaluateRequired(identity: string, access: seq<FsAccess>, asks: seq<PendingAsk>)
      returns (evals: seq<P.Evaluation>, collected: seq<PendingAsk>)
      requires PolicyLoaded(config)
      ensures evals == JudgeAll(config, RequestsOn(identity, access))
      ensures collected == asks + AsksOf(config, RequestsOn(identity, access))
    {
      hide Judge;
      evals, collected := [], asks;
      ghost var requests := RequestsOn(identity, access);
      for i := 0 to |access|
        invariant evals == JudgeAll(config, requests[..i])
        invariant collected == asks + AsksOf(config, requests[..i])
      {
        var request := P.Fs(identity, [access[i]]);
        var eval := Judge(config, request);
        if eval.decision == Ask {
          collected := collected + [PendingAsk(request, eval.matched)];
        }
        evals := evals + [eval];
        assert requests[..i + 1][..i] == requests[..i];
      }
      assert requests[..|access|] == requests;
    }

    /** The decision over one pinned operand; a symlink's link is the destination operand. */
    method DecideOne(n: Notification, access: seq<FsAccess>, inv: FsInvocation, primary: Operand, ghost h: History)
      returns (decision: Resolved, evidence: Option<seq<FsOperandDecision>>, ghost h': History)
      requires At(n, h) && Active(h) && h.recorded.None? && h.answer.None? && Ready(config, n, h)
      requires OneOperand(config, n, h.known, access, inv) && h.known.operands[0].1 == primary
      modifies journal
      ensures At(n, h') && h' == h.(answer := h'.answer)
      ensures AsksOf(config, Requests(config, n, h.known)) != [] && config.attendance == Attended ==> h'.answer.Some?
      ensures decision == DecisionOf(config, n, h.known, h'.answer)
      ensures evidence == OperandEvidence(config, n, h.known, h'.answer)
    {
      assert PolicyLoaded(config);
      hide At, Sound, Finished, Step, Judge, Ready, Invocation, Requests, DecisionOf, OperandEvidence, Verdict;
      hide Evidence;
      hide JudgeAll, RequestsOn, PrimaryAccess, Resolution, AsksOf, OneOperand;
      var first := PrimaryAccess(inv, access);
      var evals, asks := EvaluateRequired(primary.identity, first, []);
      RequestsOfOne(config, n, h.known, access, inv);
      var resolution;
      resolution, h' := SettleAsks(n, asks, h);
      RulingOnOne(config, n, h.known, h'.answer, access, inv);
      var shown;
      decision, shown := FinalizeOperand(if IsSymlink(inv) then DestOperand else PathOperand, first, evals, resolution);
      evidence := if IsSymlink(inv) then Some(shown) else None;
    }

    /** One decision over two pinned operands, under one shared answer, with the evidence for both. */
    method DecideTwo(n: Notification, access: seq<FsAccess>, inv: FsInvocation, primary: Operand, secondary: Operand,
                     ghost h: History)
      returns (decision: Resolved, evidence: Option<seq<FsOperandDecision>>, ghost h': History)
      requires At(n, h) && Active(h) && h.recorded.None? && h.answer.None? && Ready(config, n, h)
      requires BothOperands(config, n, h.known, access, inv) && h.known.operands[0].1 == primary
      requires h.known.operands[1].1 == secondary
      modifies journal
      ensures At(n, h') && h' == h.(answer := h'.answer)
      ensures AsksOf(config, Requests(config, n, h.known)) != [] && config.attendance == Attended ==> h'.answer.Some?
      ensures decision == DecisionOf(config, n, h.known, h'.answer)
      ensures evidence == OperandEvidence(config, n, h.known, h'.answer)
    {
      assert PolicyLoaded(config);
      hide At, Sound, Finished, Step, Judge, Ready, Invocation, Requests, DecisionOf, OperandEvidence, Verdict;
      hide Evidence;
      hide JudgeAll, RequestsOn, PrimaryAccess, SecondaryAccess, Resolution, AsksOf, BothOperands, IsSymlink;
      hide Done, Active, PolicyLoaded, P.Loaded, Watch, Landed, FamilyOf, EventOf, Gathered, TouchesMemory;
      var first, second := PrimaryAccess(inv, access), SecondaryAccess(inv, secondary.exists_);
      var evals, asks := EvaluateRequired(primary.identity, first, []);
      var others;
      others, asks := EvaluateRequired(secondary.identity, second, asks);
      RequestsOfTwo(config, n, h.known, access, inv);
      var resolution;
      resolution, h' := SettleAsks(n, asks, h);
      RulingOnTwo(config, n, h.known, h'.answer, access, inv);
      var shown;
      decision, shown := CombineOperands(first, evals, second, others, resolution);
      evidence := Some(shown);
    }

    /** The primary operand's refusal comes first, then the secondary's; the evidence is both. */
    method CombineOperands(first: seq<FsAccess>, evals: seq<P.Evaluation>, second: seq<FsAccess>,
                           others: seq<P.Evaluation>, resolution: Option<AskResolution>)
      returns (decision: Resolved, shown: seq<FsOperandDecision>)
      requires |first| == |evals| && |second| == |others|
      ensures decision == if Verdict(evals, resolution).response != Allow then Verdict(evals, resolution)
                          else if Verdict(others, resolution).response != Allow then Verdict(others, resolution)
                          else Verdict(evals, resolution)
      ensures shown == Evidence(PathOperand, first, evals, resolution)
                       + Evidence(DestOperand, second, others, resolution)
    {
      hide Verdict, Evidence;
      var effective, primaryShown := FinalizeOperand(PathOperand, first, evals, resolution);
      var other, otherShown := FinalizeOperand(DestOperand, second, others, resolution);
      shown := primaryShown + otherShown;
      decision := if effective.response != Allow then effective
                  else if other.response != Allow then other else effective;
    }

    /** An operand that cannot be pinned is refused with the errno of trying, and on record. */
    method RecordRealizationDeny(n: Notification, name: string, path: string, dest: Option<string>,
                                 access: seq<FsAccess>, errno: nat,
                                 ghost inv: FsInvocation, ghost h: History)
      returns (r: Result<Handled, RunError>)
      requires At(n, h) && Unrecorded(h) && h.live == map[] && h.known.refused == Some(errno) && config.mode == Enforce
      requires Trusted(n, h.known, (path, dest, access, inv)) && name == F.Name(n.data.nr)
      modifies journal, writer
      ensures Finished(n, r)
    {
      assert PolicyLoaded(config);
      hide At, Sound, Finished, Step, Judge, JudgeAll, Verdict, F.Name, F.ShapeOf, Invocation, FsGathered;
      InvocationIsGathered(n, h.known);
      r := RecordAndRespond(n, name, Fact.Fs(path, access, dest), Fixed(Deny, Realization), Refuse(errno), h);
    }

    /** Commits a recorded and confirmed allow, or gives the operand of an unsupported open back,
        and answers with what came of it. */
    method Commit(n: Notification, access: seq<FsAccess>, inv: FsInvocation, primary: nat, secondary: Option<nat>,
                  ghost h: History)
      returns (r: Result<Handled, RunError>)
      requires At(n, h) && MayAct(config, n, h) && FamilyOf(n).FileSystem?
      requires Invocation(n, h.known) == Some((access, inv))
      requires Holding(h, primary, secondary) && (inv.Open? ==> secondary.None?)
      modifies journal, broker.state
      ensures Finished(n, r)
    {
      hide At, Sound, Finished, Step, DecisionOf, Invocation, Watch, Landed, Raisable, Ready;
      var closeOnExec := if inv.Open? && F.Has(inv.flags, O_CLOEXEC) then O_CLOEXEC else 0;
      ghost var h1: History;
      if inv.Open? && inv.unsupported.Some? {
        var done;
        done, h1 := UnpinAll(n, primary, secondary, h);
        if !done {
          return Err(BrokerFailed);
        }
        r := Respond(n, Refuse(inv.unsupported.value), h1);
        return;
      }
      var result;
      if inv.Open? {
        result, h1 := CommitOpen(n, inv, primary, h);
      } else {
        result, h1 := CommitMutation(n, inv, primary, secondary, h);
      }
      if result.None? {
        return Err(BrokerFailed);
      }
      r := Respond(n, AnswerOf(result.value, closeOnExec), h1);
    }

    method CommitOpen(n: Notification, inv: FsInvocation, primary: nat, ghost h: History)
      returns (result: Option<BrokerResult>, ghost h': History)
      requires At(n, h) && MayAct(config, n, h) && inv.Open? && inv.unsupported.None? && Committable(n, h.known, inv)
      requires Holding(h, primary, None)
      modifies journal, broker.state
      ensures if result.None? then Finished(n, Err(BrokerFailed))
              else At(n, h') && h' == h.(live := map[], acted := true, outcome := result)
    {
      hide Step, Watch, Landed, MayAct, BadDescriptor, Traces, Br.Later, Committable;
      result := broker.CommitOpen(primary, inv.flags, inv.mode);
      OpenIsAdmitted(config, n, h, inv, primary, result);
      h' := if result.None? then h else journal.stage.h;
    }

    method CommitMutation(n: Notification, inv: FsInvocation, primary: nat, secondary: Option<nat>, ghost h: History)
      returns (result: Option<BrokerResult>, ghost h': History)
      requires At(n, h) && MayAct(config, n, h) && inv.Mutate? && Committable(n, h.known, inv)
      requires Holding(h, primary, secondary)
      modifies journal, broker.state
      ensures if result.None? then Finished(n, Err(BrokerFailed))
              else At(n, h') && h' == h.(live := map[], acted := true, outcome := result)
    {
      hide Step, Watch, Landed, MayAct, BadDescriptor, Traces, Br.Later, Committable;
      result := broker.CommitMutation(primary, secondary, inv.mutation);
      MutationIsAdmitted(config, n, h, inv, primary, secondary, result);
      h' := if result.None? then h else journal.stage.h;
    }

    /** Records the decision over the pinned operands, then gives them back or commits them. */
    method Realize(n: Notification, name: string, fact: Fact, access: seq<FsAccess>, inv: FsInvocation,
                   decision: Resolved,
                   evidence: Option<seq<FsOperandDecision>>, primary: nat, secondary: Option<nat>, ghost h: History)
      returns (r: Result<Handled, RunError>)
      requires At(n, h) && Active(h) && h.recorded.None? && Untouched(h) && Ready(config, n, h)
      requires AsksOf(config, Requests(config, n, h.known)) != [] && config.attendance == Attended ==> h.answer.Some?
      requires FamilyOf(n).FileSystem? && config.mode == Enforce && Invocation(n, h.known) == Some((access, inv))
      requires h.known.refused.None?
      requires Holding(h, primary, secondary) && (inv.Open? ==> secondary.None?)
      requires SyscallEvent(n.pid, name, fact, decision.event, decision.ask, decision.rule,
                            decision.wouldDeny, evidence)
               == EventOf(config, n, h.known, h.answer)
      requires decision == DecisionOf(config, n, h.known, h.answer)
      modifies journal, writer, broker.state
      ensures Finished(n, r)
    {
      hide At, Sound, Finished, Step, DecisionOf, EventOf, Invocation, Requests, AsksOf, Ready, Raisable;
      var event := SyscallEvent(n.pid, name, fact, decision.event, decision.ask, decision.rule,
                                decision.wouldDeny, evidence);
      var recorded := Record(n, event, h);
      if recorded.Err? {
        return Err(recorded.error);
      }
      ghost var h1 := h.(recorded := Some(event));
      if decision.response != Allow {
        var done;
        done, h1 := UnpinAll(n, primary, secondary, h1);
        if !done {
          return Err(BrokerFailed);
        }
        r := Respond(n, Refuse(EACCES), h1);
        return;
      }
      var alive;
      alive, h1 := StillAlive(n, h1);
      if alive.None? {
        return Err(NotifyFailed);
      }
      if !alive.value {
        r := Drop(n, primary, secondary, h1);
        return;
      }
      r := Commit(n, access, inv, primary, secondary, h1);
    }

    /** The caller died after the record: the operands go back and nothing is answered. */
    method Drop(n: Notification, primary: nat, secondary: Option<nat>, ghost h: History)
      returns (r: Result<Handled, RunError>)
      requires At(n, h) && h.died && !h.sent && Holding(h, primary, secondary)
      modifies journal, broker.state
      ensures Finished(n, r)
    {
      hide Step, DecisionOf, Invocation, Requests, AsksOf, Raisable, Watch, Landed, BadDescriptor, Traces;
      var done;
      ghost var h1;
      done, h1 := UnpinAll(n, primary, secondary, h);
      if !done {
        return Err(BrokerFailed);
      }
      r := Ok(Dropped);
    }

    method HandleFsEnforce(n: Notification, shape: F.FsShape, lexicalPath: string, lexicalDest: Option<string>,
                           access: seq<FsAccess>, inv: FsInvocation, ghost h: History)
      returns (r: Result<Handled, RunError>)
      requires At(n, h) && Unrecorded(h) && h.live == map[] && h.known.operands == [] && h.known.refused.None?
      requires config.mode == Enforce && FamilyOf(n) == FileSystem(shape)
      requires Trusted(n, h.known, (lexicalPath, lexicalDest, access, inv))
      modifies journal, writer, broker.state
      ensures Finished(n, r)
    {
      hide At, Sound, Finished, Step, DecisionOf, EventOf, Invocation, Requests, AsksOf, Ready, Raisable, F.ShapeOf;
      hide MutationOf, PrepareModes;
      OperandsOfCall(n, h.known, access, inv);
      var primaryInput := if IsSymlink(inv) then lexicalDest.value else lexicalPath;
      var (follow, missing, secondFollow, secondMissing) := PrepareModes(inv);
      ghost var h1: History;
      var first;
      first, h1 := Pin(n, primaryInput, follow, missing, h);
      if first.PrepareLost? {
        return Err(BrokerFailed);
      }
      PinsDoNotChangeTheCall(n, h.known, h1.known);
      if first.Unpinned? {
        r := RecordRealizationDeny(n, shape.name, lexicalPath, lexicalDest, access, first.errno, inv, h1);
        return;
      }
      if IsSymlink(inv) || lexicalDest.None? {
        r := EnforceOne(n, shape.name, lexicalPath, access, inv, first.token, first.operand, h1);
      } else {
        r := EnforceTwo(n, shape.name, lexicalPath, lexicalDest.value, access, inv, first.token, first.operand,
                        secondFollow, secondMissing, h1);
      }
    }

    /** One operand: decide it at its pinned identity and realize the decision. */
    method EnforceOne(n: Notification, name: string, lexicalPath: string, access: seq<FsAccess>, inv: FsInvocation,
                      token: nat, operand: Operand, ghost h: History)
      returns (r: Result<Handled, RunError>)
      requires At(n, h) && Unrecorded(h) && config.mode == Enforce && FamilyOf(n).FileSystem?
      requires name == F.Name(n.data.nr)
      requires Invocation(n, h.known) == Some((access, inv)) && h.known.refused.None?
      requires h.known.operands == [(token, operand)] && h.live == map[token := operand]
      requires |OperandInputs(h.known, inv)| == 1 && |h.known.texts| > 0 && lexicalPath == h.known.texts[0]
      modifies journal, writer, broker.state
      ensures Finished(n, r)
    {
      hide At, Sound, Finished, Step, DecisionOf, Invocation, Requests, AsksOf, Raisable, F.Name, OperandEvidence;
      InvocationIsGathered(n, h.known);
      ghost var h1: History;
      var decision, evidence;
      decision, evidence, h1 := DecideOne(n, access, inv, operand, h);
      var fact := if IsSymlink(inv) then Fact.Fs(lexicalPath, access, Some(operand.identity))
                  else Fact.Fs(operand.identity, access, None);
      r := Realize(n, name, fact, access, inv, decision, evidence, token, None, h1);
    }

    /** Two operands: pin the second, decide both together and realize the decision. */
    method EnforceTwo(n: Notification, name: string, lexicalPath: string, lexicalDest: string, access: seq<FsAccess>,
                      inv: FsInvocation,
                      token: nat, operand: Operand, follow: bool, missing: bool, ghost h: History)
      returns (r: Result<Handled, RunError>)
      requires At(n, h) && Unrecorded(h) && config.mode == Enforce && name == F.Name(n.data.nr)
      requires Trusted(n, h.known, (lexicalPath, Some(lexicalDest), access, inv)) && h.known.refused.None?
      requires h.known.operands == [(token, operand)] && h.live == map[token := operand]
      requires TwoOperands(inv) && |h.known.texts| == 2 && PrimaryAccess(inv, access) != []
      requires PrepareModes(inv).2 == follow && PrepareModes(inv).3 == missing
      modifies journal, writer, broker.state
      ensures Finished(n, r)
    {
      hide At, Sound, Finished, Step, DecisionOf, Invocation;
      hide Requests, AsksOf, Raisable, F.Name, OperandEvidence, PrepareModes;
      InvocationIsGathered(n, h.known);
      ghost var h1: History;
      var second;
      assert token in h.live;
      second, h1 := Pin(n, lexicalDest, follow, missing, h);
      if second.PrepareLost? {
        return Err(BrokerFailed);
      }
      PinsDoNotChangeTheCall(n, h.known, h1.known);
      if second.Unpinned? {
        var done;
        done, h1 := Unpin(n, token, h1);
        if !done {
          return Err(BrokerFailed);
        }
        assert h1.live == map[];
        r := RecordRealizationDeny(n, name, lexicalPath, Some(lexicalDest), access, second.errno, inv, h1);
        return;
      }
      var decision, evidence;
      decision, evidence, h1 := DecideTwo(n, access, inv, operand, second.operand, h1);
      var fact := Fact.Fs(operand.identity, access, Some(second.operand.identity));
      r := Realize(n, name, fact, access, inv, decision, evidence, token, Some(second.token), h1);
    }

    /** Facts that cannot be trusted cannot be allowed. */
    method RefuseUnreadable(n: Notification, name: string, ghost h: History) returns (r: Result<Handled, RunError>)
      requires At(n, h) && Unrecorded(h) && h.live == map[] && h.known.refused.None?
      requires FamilyOf(n).FileSystem? && FsGathered(n, h.known) && Invocation(n, h.known).None?
      requires name == F.Name(n.data.nr)
      modifies journal, writer
      ensures Finished(n, r)
    {
      assert PolicyLoaded(config);
      hide At, Sound, Finished, Step, Judge, JudgeAll, Verdict, Invocation, FsGathered, F.Name;
      r := RecordAndRespond(n, name, Raw, Fixed(Deny, MemoryRead), Refuse(EACCES), h);
    }

    /** Record-only decides on the lexical paths and lets the call run. */
    method RecordLexical(n: Notification, name: string, path: string, dest: Option<string>, access: seq<FsAccess>,
                         ghost inv: FsInvocation, ghost h: History)
      returns (r: Result<Handled, RunError>)
      requires At(n, h) && Unrecorded(h) && h.live == map[] && h.known.operands == [] && h.known.refused.None?
      requires config.mode == RecordOnly && FsGathered(n, h.known) && name == F.Name(n.data.nr)
      requires Trusted(n, h.known, (path, dest, access, inv))
      modifies journal, writer
      ensures Finished(n, r)
    {
      hide At, Sound, Finished, Step, Judge, JudgeAll, Verdict, Invocation, FsGathered, F.Name;
      ghost var h1: History;
      var decision;
      decision, h1 := ResolveDecision(n, P.Fs(path, access), h);
      r := RecordAndRespond(n, name, Fact.Fs(path, access, dest), decision, ContinueOrDeny(decision), h1);
    }

    method HandleFs(n: Notification, shape: F.FsShape) returns (r: Result<Handled, RunError>)
      requires At(n, Fresh()) && FamilyOf(n) == FileSystem(shape)
      modifies journal, writer, broker.state
      ensures Finished(n, r)
    {
      hide At, Sound, Finished, Step, Invocation, FsGathered, F.ShapeOf, PathArgs;
      ghost var h: History;
      var ended;
      ended, h := Confirm(n, Fresh());
      if ended.Some? {
        return ended.value;
      }
      var gathered;
      gathered, h := GatherFs(n, shape, h);
      ended, h := Confirm(n, h);
      if ended.Some? {
        return ended.value;
      }
      if gathered.None? {
        r := RefuseUnreadable(n, shape.name, h);
        return;
      }
      var (path, dest, access, inv) := gathered.value;
      if config.mode == Enforce {
        r := HandleFsEnforce(n, shape, path, dest, access, inv, h);
      } else {
        r := RecordLexical(n, shape.name, path, dest, access, inv, h);
      }
    }

    /** One notification: classify, gather facts, decide, record, respond. */
    method HandleNotification(n: Notification) returns (r: Result<Handled, RunError>)
      requires At(n, Fresh())
      modifies journal, writer, broker.state
      ensures Finished(n, r)
    {
      hide At, Sound, Finished, Step, Judge, JudgeAll, Verdict, Invocation, FsGathered;
      var nr := n.data.nr;
      if n.data.arch != AUDIT_ARCH_X86_64 || Bits.And(nr, X32_SYSCALL_BIT) != 0 {
        r := RecordAndRespond(n, "foreign_abi", Raw, Fixed(Deny, ForeignAbi), Refuse(ENOSYS), Fresh());
        return;
      }
      if nr in DENIED_RECORDED {
        var rule := if nr == PIDFD_GETFD then PidfdGetfd else IoUring;
        r := RecordAndRespond(n, F.Name(nr), Raw, Fixed(Deny, rule), Refuse(ENOSYS), Fresh());
        return;
      }
      var shape := F.ShapeOf(nr);
      if shape.Some? {
        r := HandleFs(n, shape.value);
        return;
      }
      if nr == EXECVE || nr == EXECVEAT {
        r := HandleExec(n);
        return;
      }
      if nr == CLONE || nr == FORK || nr == VFORK || nr == CLONE3 {
        r := HandleProcess(n);
        return;
      }
      if nr == CONNECT || nr == SENDTO || nr == BIND {
        r := HandleNetwork(n);
        return;
      }
      if nr == PTRACE || nr == PROCESS_VM_READV || nr == PROCESS_VM_WRITEV {
        r := HandleCrossProcess(n);
        return;
      }
      UntabledIsSilent(n);
      r := Respond(n, Continue, Fresh());
    }

    // ----- the loop -----

    /** Between notifications: nothing is pinned, nothing is owed. */
    ghost predicate Resting()
      reads this, journal, broker, broker.state, writer
    {
      && Sound() && !writer.torn && broker.state.held == map[] && broker.state.window <= 2
      && (journal.stage == Idle || (journal.stage.Handling? && Done(journal.stage.h)))
    }

    /** Serves notifications as polls deliver them, once the configuration has been found fit to run.
        No result means the run is still going after these polls. */
    method RunLoop(polls: seq<Poll>) returns (r: Option<Result<int, RunError>>)
      requires Resting()
      modifies journal, writer, broker.state
      ensures Sound() && Accepted(config, journal.log) && Traces(writer.lines, preamble, Landed(journal.log))
      ensures r.None? || r.value.Ok? ==> Resting() && Runnable(config)
      ensures !Runnable(config) ==>
                r == Some(Err(Validate(config).value)) && journal.stage == Down && writer.lines == old(writer.lines)
      ensures r.Some? && r.value.Err? ==> journal.stage == Down || Resting()
    {
      var unfit := Validate(config);
      if unfit.Some? {
        AbortRun();
        return Some(Err(unfit.value));
      }
      for i := 0 to |polls|
        invariant Resting()
      {
        match polls[i] {
          case Interrupted =>
          case Quiet =>
          case RecvInterrupted =>
          case RecvGone =>
          case PollFailed | RecvFailed =>
            AbortRun();
            return Some(Err(NotifyFailed));
          case Arrived(n) =>
            Receive(n);
            var handled := HandleNotification(n);
            if handled.Err? {
              AbortPending(n, handled.error);
              return Some(Err(handled.error));
            }
            Settled(n, handled);
          case HungUp =>
            var status: Option<int> := *;
            return Some(if status.Some? then Ok(status.value) else Err(NotifyFailed));
        }
      }
      r := None;
    }

    ghost method Receive(n: Notification)
      requires Resting() && Runnable(config)
      modifies journal
      ensures At(n, Fresh())
    {
      hide Admits, BadDescriptor, Watch, Landed;
      journal.Note(Received(n));
    }

    lemma Settled(n: Notification, handled: Result<Handled, RunError>)
      requires Finished(n, handled) && handled.Ok?
      ensures Resting()
    {
      hide Step, Watch, Landed, BadDescriptor;
    }

    /** The listener itself failed: nothing is pending, the tree is killed. */
    ghost method AbortRun()
      requires Resting()
      modifies journal
      ensures Sound() && journal.stage == Down
    {
      hide Admits, BadDescriptor, Watch, Landed;
      journal.Note(GaveUp);
      journal.Note(Killed);
    }

    /** Handling failed: refuse the pending action if that is still possible, then kill. */
    method AbortPending(n: Notification, error: RunError)
      requires Finished(n, Err(error))
      modifies journal
      ensures Sound() && journal.stage == Down
    {
      hide Admits, DecisionOf, Watch, Landed;
      journal.Note(GaveUp);
      var _ := kernel.Send(n.id, Refuse(EIO));
      journal.Note(Killed);
    }
  }
}
