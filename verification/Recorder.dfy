/** The trace: what an event says, and the single writer that appends events in order. */
module Recorder {
  import opened Wrappers
  import opened Vocabulary
  import P = Policy
  import Host

  /** The rule an event names: one of the policy's, or one of the supervisor's own. */
  datatype RuleId =
    | ByPolicy(id: P.MatchId)
    | IoUring
    | ForeignAbi
    | MemoryRead
    | ProcessCreation
    | ProcessTree
    | ProcessTreeDeny
    | PidfdGetfd
    | Realization

  const RECORD_ONLY: RuleId := ByPolicy(P.BaseRecordOnly)

  datatype FsOperand = PathOperand | DestOperand

  datatype FsOperandDecision = FsOperandDecision(
    operand: FsOperand, access: FsAccess, decision: Decision, askResolution: Option<AskResolution>, matchedRule: RuleId)

  datatype Fact =
    | Fs(path: string, access: seq<FsAccess>, dest: Option<string>)
    | Net(host: Host.Ip, port: nat)
    | Process(flags: Option<nat>)
    | CrossProcess(targetPid: nat)
    | Exec(binary: string)
    | Raw

  datatype SyscallEvent = SyscallEvent(
    pid: nat, syscall: string, fact: Fact, decision: Decision, askResolution: Option<AskResolution>,
    matchedRule: RuleId, wouldDeny: bool, operandDecisions: Option<seq<FsOperandDecision>>)

  datatype EventBody =
    | RunStart
    | Syscall(event: SyscallEvent)
    | RunEnd(exitCode: Option<int>, signal: Option<int>, finalStep: nat)

  /** One complete line of the trace. */
  datatype Line = Line(seqNo: nat, body: EventBody)

  datatype RecorderError = WriteFailed

  /** Sequence numbers are dense from zero. */
  predicate Dense(lines: seq<Line>) {
    forall i :: 0 <= i < |lines| ==> lines[i].seqNo == i
  }

  /** The writer and the sink behind it. A write may fail at any append and then may leave part
      of a line behind; a sync may fail at any time. */
  class TraceWriter {
    var nextSeq: nat
    /** The complete lines in the sink. */
    ghost var lines: seq<Line>
    /** How many of them an fsync has made durable. */
    ghost var durable: nat
    /** Something unfinished follows the complete lines. */
    ghost var torn: bool

    ghost predicate Valid()
      reads this
    {
      && Dense(lines) && durable <= |lines|
      && (!torn ==> nextSeq == |lines|)
    }

    constructor ()
      ensures Valid() && lines == [] && durable == 0 && !torn
    {
      nextSeq, lines, durable, torn := 0, [], 0, false;
    }

    method Append(body: EventBody) returns (r: Result<nat, RecorderError>)
      requires Valid() && !torn
      modifies this
      ensures Valid() && durable == old(durable)
      ensures r.Ok? ==> lines == old(lines) + [Line(r.value, body)] && r.value == |old(lines)| && !torn
      ensures r.Err? ==> lines == old(lines) && torn
    {
      var written: bool := *;
      if !written {
        torn := true;
        return Err(WriteFailed);
      }
      var seqNo := nextSeq;
      lines := lines + [Line(seqNo, body)];
      nextSeq := seqNo + 1;
      r := Ok(seqNo);
    }

    method Sync() returns (r: Result<(), RecorderError>)
      requires Valid()
      modifies this`durable
      ensures Valid()
      ensures if r.Ok? then durable == |lines| else durable == old(durable)
    {
      var synced: bool := *;
      if !synced {
        return Err(WriteFailed);
      }
      durable := |lines|;
      r := Ok(());
    }
  }
}
