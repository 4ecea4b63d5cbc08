/** One run start to finish: the lifecycle events, the child, the loop and the report, in order. */
module Session {
  import opened Wrappers
  import opened Vocabulary
  import opened Recorder
  import opened Decisions
  import opened NotifyLoop
  import C = CallLaws
  import Br = Broker
  import Host
  import K = Kernel
  import P = Policy
  import Pr = Protocol
  import Text

  // ----- wait statuses -----

  datatype ExitDisposition = Exited(code: int) | Signaled(signal: int)

  /** The exit code a shell would show. */
  function ShellCode(d: ExitDisposition): int {
    match d case Exited(n) => n case Signaled(s) => 128 + s
  }

  /** A cast of a small non-negative i32 to i8. */
  function SignedByte(x: int): int {
    if x % 256 < 128 then x % 256 else x % 256 - 256
  }

  /** An i32 status from `waitpid`; shifts and masks of a negative status round toward minus
      infinity. */
  function DecodeWaitStatus(status: int): Option<ExitDisposition> {
    var low := status % 128;
    if low == 0 then Some(Exited((status / 256) % 256))
    else if SignedByte(low + 1) / 2 > 0 then Some(Signaled(low))
    else None
  }

  /** The status of an exit, and of a death by signal with or without a core. */
  function ExitStatus(code: int): int { code * 256 }

  function SignalStatus(signal: int, core: bool): int { signal + if core then 128 else 0 }

  /** Every exit and every signal death decodes to itself, and nothing else decodes: the stopped
      and continued markers are the statuses whose low seven bits are all ones. */
  lemma DecodeInvertsEncode(code: int, signal: int, core: bool, status: int)
    ensures 0 <= code < 256 ==> DecodeWaitStatus(ExitStatus(code)) == Some(Exited(code))
    ensures 1 <= signal <= 126 ==> DecodeWaitStatus(SignalStatus(signal, core)) == Some(Signaled(signal))
    ensures DecodeWaitStatus(status).None? <==> status % 128 == 127
    ensures DecodeWaitStatus(status).Some? ==> 0 <= ShellCode(DecodeWaitStatus(status).value) < 256
    ensures ShellCode(Exited(code)) == code && ShellCode(Signaled(signal)) == 128 + signal
  {
    if 0 <= code < 256 {
      assert (code * 256) % 128 == 0;
    }
  }

  // ----- the session -----

  datatype SessionError =
    | RecorderFailed
    | BrokerFailed
    | SpawnFailed
    | RunFailed(error: RunError)
    | MalformedWaitStatus
    | ClockFailed
    | ReportFailed

  /** The processes and files a session brings into being, each with the durable part of the trace
      at the moment it was. */
  class Machine {
    ghost var childSaw: Option<seq<Line>>
    ghost var reportSaw: Option<seq<Line>>

    constructor ()
      ensures childSaw == None && reportSaw == None
    {
      childSaw, reportSaw := None, None;
    }

    /** Forks the supervised child and waits for its handshake. The child exists from the fork on,
        also when the handshake then fails. */
    method SpawnSupervised(writer: TraceWriter) returns (ok: bool)
      requires writer.Valid() && this != writer as object
      modifies this`childSaw
      ensures childSaw == Some(writer.lines[..writer.durable]) || (!ok && childSaw == old(childSaw))
    {
      var prepares: bool, forks: bool, handshakes: bool := *, *, *;
      if !prepares || !forks {
        return false;
      }
      childSaw := Some(writer.lines[..writer.durable]);
      ok := handshakes;
    }

    /** Renders the trace on disk and writes the report; the file may come to exist even when
        writing it fails. */
    method WriteReport(writer: TraceWriter) returns (ok: bool)
      requires writer.Valid() && this != writer as object
      modifies this`reportSaw
      ensures reportSaw == Some(writer.lines[..writer.durable]) || (!ok && reportSaw == old(reportSaw))
    {
      var readable: bool, renders: bool, creates: bool, writes: bool, syncs: bool := *, *, *, *, *;
      if !readable || !renders || !creates {
        return false;
      }
      reportSaw := Some(writer.lines[..writer.durable]);
      ok := writes && syncs;
    }
  }

  /** A trace as a session leaves it: nothing, or run_start, then syscalls, then at most one
      run_end and that one last. */
  ghost predicate Lifecycle(lines: seq<Line>) {
    && Dense(lines)
    && (lines != [] ==> lines[0].body == RunStart)
    && (forall i :: 0 < i < |lines| ==> lines[i].body != RunStart)
    && (forall i :: 0 <= i < |lines| - 1 ==> !lines[i].body.RunEnd?)
  }

  ghost predicate HasEnd(lines: seq<Line>) {
    lines != [] && lines[|lines| - 1].body.RunEnd?
  }

  /** The trace of a session in which the loop did `log`: nothing yet, or run_start, then exactly the
      events of the log that landed, in order, then at most run_end. */
  ghost predicate TraceOf(lines: seq<Line>, log: seq<Pr.Event>) {
    var landed := Pr.Landed(log);
    if lines == [] then log == []
    else
      && lines[0].body == RunStart
      && 1 + |landed| <= |lines| <= 2 + |landed|
      && (forall i :: 0 <= i < |landed| ==> lines[1 + i].body == Syscall(landed[i]))
      && (|lines| == 2 + |landed| ==> lines[1 + |landed|].body.RunEnd?)
  }

  /** The configuration a session was asked for: its own mode, attendance and child; in enforce mode
      its policy, a broker and its resolved hosts; in record-only mode none of these. */
  ghost predicate AskedFor(config: Config, mode: Mode, attendance: Attendance, policy: Option<P.Policy>,
                           resolvedHosts: map<string, seq<Host.Ip>>, pid: nat) {
    && config.mode == mode && config.attendance == attendance && config.rootPid == pid
    && (mode == Enforce ==> config.policy == policy && config.broker && config.resolvedHosts == Some(resolvedHosts))
    && (mode == RecordOnly ==> config.policy == None && !config.broker && config.resolvedHosts == None)
  }

  /** Drives one run. No result means it is still going after these polls. What the loop did is a run
      of the configuration asked for, and the trace is that of it. */
  method RunSession(mode: Mode, attendance: Attendance, policy: Option<P.Policy>, ruleset: Option<seq<string>>,
                    workspace: string, resolvedHosts: map<string, seq<Host.Ip>>, pid: nat, writer: TraceWriter,
                    machine: Machine, polls: seq<Poll>)
    returns (r: Option<Result<ExitDisposition, SessionError>>, ghost config: Config, ghost log: seq<Pr.Event>)
    requires writer.Valid() && writer.lines == [] && !writer.torn && machine.childSaw == None
    requires machine.reportSaw == None
    requires policy.Some? ==> P.Loaded(policy.value)
    requires ruleset.Some? ==> forall i :: 0 <= i < |ruleset.value| ==> Text.Absolute(ruleset.value[i])
    modifies writer, machine
    ensures writer.Valid() && Lifecycle(writer.lines)
    ensures AskedFor(config, mode, attendance, policy, resolvedHosts, pid)
    ensures PolicyLoaded(config) && Pr.Accepted(config, log) && TraceOf(writer.lines, log)
    ensures log != [] ==> machine.childSaw.Some?
    ensures mode == Enforce ==> C.LetsThroughNone(log)
    ensures machine.childSaw.Some? ==> machine.childSaw.value == [Line(0, RunStart)]
    ensures machine.reportSaw.Some? ==>
              machine.reportSaw.value == writer.lines && HasEnd(writer.lines) && machine.childSaw.Some?
    ensures r.None? || (r.value.Err? && r.value.error.RunFailed?) ==> !HasEnd(writer.lines) && machine.reportSaw == None
    ensures r.Some? && r.value.Ok? ==> machine.reportSaw == Some(writer.lines) && writer.durable == |writer.lines|
                                       && writer.lines[|writer.lines| - 1].body == EndOf(r.value.value)
  {
    log := [];
    config := if mode == RecordOnly then Config(RecordOnly, None, attendance, pid, false, None)
              else Config(Enforce, policy, attendance, pid, true, Some(resolvedHosts));
    NothingDone(config);
    hide Pr.Accepted, C.LetsThroughNone, Pr.Landed, P.Loaded;
    var started := writer.Append(RunStart);
    if started.Err? {
      r := Some(Err(RecorderFailed));
      return;
    }
    var synced := writer.Sync();
    if synced.Err? {
      r := Some(Err(RecorderFailed));
      return;
    }
    if mode == Enforce {
      if ruleset.None? {
        r := Some(Err(RunFailed(MissingBroker)));
        return;
      }
      var up: bool := *;
      if !up {
        r := Some(Err(SessionError.BrokerFailed));
        return;
      }
    }
    var spawned := machine.SpawnSupervised(writer);
    if !spawned {
      r := Some(Err(SpawnFailed));
      return;
    }
    if mode == Enforce && policy.None? {
      r := Some(Err(RunFailed(EnforceWithoutPolicy)));
      return;
    }
    var served := if mode == RecordOnly then Config(RecordOnly, None, attendance, pid, false, None)
                  else Config(Enforce, policy, attendance, pid, true, Some(resolvedHosts));
    var outcome;
    outcome, log := Serve(served, if ruleset.Some? then ruleset.value else [], workspace, writer, polls);
    if mode == Enforce {
      C.EnforcedIsNeverLetThrough(served, log);
    }
    if outcome.None? {
      r := None;
      return;
    }
    if outcome.value.Err? {
      r := Some(Err(RunFailed(outcome.value.error)));
      return;
    }
    var exit := DecodeWaitStatus(outcome.value.value);
    if exit.None? {
      r := Some(Err(MalformedWaitStatus));
      return;
    }
    r := Conclude(exit.value, writer, machine, log);
  }

  lemma NothingDone(config: Config)
    requires PolicyLoaded(config)
    ensures Pr.Accepted(config, []) && C.LetsThroughNone([]) && Pr.Landed([]) == []
  {}

  /** The run_end event of an exit. */
  function EndOf(exit: ExitDisposition): EventBody {
    match exit
    case Exited(code) => RunEnd(Some(code), None, 0)
    case Signaled(signal) => RunEnd(None, Some(signal), 0)
  }

  /** Serves the child with the notify loop; what that does is a run of this very configuration, and
      all it adds to the trace are the events of that run. */
  method Serve(config: Config, anchors: seq<string>, workspace: string, writer: TraceWriter, polls: seq<Poll>)
    returns (outcome: Option<Result<int, RunError>>, ghost log: seq<Pr.Event>)
    requires PolicyLoaded(config) && writer.Valid() && !writer.torn && writer.lines == [Line(0, RunStart)]
    requires forall i :: 0 <= i < |anchors| ==> Text.Absolute(anchors[i])
    modifies writer
    ensures writer.Valid() && Lifecycle(writer.lines) && writer.lines != [] && !HasEnd(writer.lines)
    ensures Pr.Accepted(config, log) && TraceOf(writer.lines, log) && |writer.lines| == 1 + |Pr.Landed(log)|
    ensures outcome.Some? && outcome.value.Ok? ==> !writer.torn
  {
    var journal := new Pr.Journal(config);
    var kernel := new K.Notifier(journal);
    var state := new Br.BrokerState(anchors);
    var broker := new Br.Client(workspace, state, journal);
    var supervisor := new Supervisor(config, kernel, broker, writer, journal, [RunStart]);
    outcome := supervisor.RunLoop(polls);
    log := journal.log;
    SyscallsOnly(writer.lines, log);
  }

  lemma SyscallsOnly(lines: seq<Line>, log: seq<Pr.Event>)
    requires Dense(lines) && Traces(lines, [RunStart], Pr.Landed(log))
    ensures Lifecycle(lines) && lines != [] && !HasEnd(lines)
    ensures TraceOf(lines, log) && |lines| == 1 + |Pr.Landed(log)|
  {
    hide Pr.Landed;
    var landed := Pr.Landed(log);
    assert lines[0].body == [RunStart][0];
    forall i | 0 < i < |lines| ensures lines[i].body.Syscall? {
      assert lines[|[RunStart]| + (i - 1)].body == Syscall(landed[i - 1]);
    }
    forall i | 0 <= i < |landed| ensures lines[1 + i].body == Syscall(landed[i]) {
      assert lines[|[RunStart]| + i].body == Syscall(landed[i]);
    }
  }

  /** Stamps run_end, makes it durable, then reports. */
  method Conclude(exit: ExitDisposition, writer: TraceWriter, machine: Machine, ghost log: seq<Pr.Event>)
    returns (r: Option<Result<ExitDisposition, SessionError>>)
    requires writer.Valid() && !writer.torn && Lifecycle(writer.lines) && writer.lines != [] && !HasEnd(writer.lines)
    requires machine.reportSaw == None && TraceOf(writer.lines, log) && |writer.lines| == 1 + |Pr.Landed(log)|
    modifies writer, machine`reportSaw
    ensures writer.Valid() && Lifecycle(writer.lines) && writer.lines != [] && TraceOf(writer.lines, log)
    ensures machine.reportSaw.Some? ==> machine.reportSaw.value == writer.lines && HasEnd(writer.lines)
    ensures r.Some? && (r.value.Err? ==> !r.value.error.RunFailed?)
    ensures r.value.Ok? ==> machine.reportSaw == Some(writer.lines) && writer.durable == |writer.lines|
                            && r.value.value == exit && writer.lines[|writer.lines| - 1].body == EndOf(exit)
  {
    var clock: bool := *;
    if !clock {
      return Some(Err(ClockFailed));
    }
    var ended := writer.Append(EndOf(exit));
    if ended.Err? {
      return Some(Err(RecorderFailed));
    }
    var synced := writer.Sync();
    if synced.Err? {
      return Some(Err(RecorderFailed));
    }
    assert writer.lines[..writer.durable] == writer.lines;
    var reported := machine.WriteReport(writer);
    if !reported {
      return Some(Err(ReportFailed));
    }
    r := Some(Ok(exit));
  }
}
