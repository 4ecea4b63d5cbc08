/** From pure evaluations to the one decision a held syscall gets. */
module Decisions {
  import opened Wrappers
  import opened Vocabulary
  import opened Recorder
  import P = Policy
  import Host

  /** The immutable inputs of one run; `broker` says whether a confined broker is attached. */
  datatype Config = Config(
    mode: Mode, policy: Option<P.Policy>, attendance: Attendance, rootPid: nat, broker: bool,
    resolvedHosts: Option<map<string, seq<Host.Ip>>>)

  /** What loading guarantees of the policy. */
  ghost predicate PolicyLoaded(c: Config) {
    c.policy.Some? ==> P.Loaded(c.policy.value)
  }

  /** Enforce needs a policy and a broker; only such a run serves notifications. */
  predicate Runnable(c: Config) {
    c.mode == Enforce ==> c.policy.Some? && c.broker
  }

  datatype Resolved = Resolved(
    event: Decision, response: Decision, ask: Option<AskResolution>, rule: RuleId, wouldDeny: bool)

  function Fixed(decision: Decision, rule: RuleId): Resolved {
    Resolved(decision, decision, None, rule, false)
  }

  /** One ask-matched request, as listed in the prompt. */
  datatype PendingAsk = PendingAsk(request: P.Request, rule: P.MatchId)

  function Judge(c: Config, request: P.Request): P.Evaluation
    requires PolicyLoaded(c)
  {
    match c.policy
    case Some(policy) => P.Evaluate(policy, request, c.mode)
    case None => P.Evaluation(Allow, P.BaseRecordOnly, false)
  }

  function JudgeAll(c: Config, requests: seq<P.Request>): (evals: seq<P.Evaluation>)
    requires PolicyLoaded(c)
    ensures |evals| == |requests|
  {
    seq(|requests|, i requires 0 <= i < |requests| => Judge(c, requests[i]))
  }

  /** The requests an ask rule matched, in order. */
  function AsksOf(c: Config, requests: seq<P.Request>): seq<PendingAsk>
    requires PolicyLoaded(c)
  {
    if requests == [] then []
    else
      var last := requests[|requests| - 1];
      var eval := Judge(c, last);
      AsksOf(c, requests[..|requests| - 1]) + (if eval.decision == Ask then [PendingAsk(last, eval.matched)] else [])
  }

  /** The evaluation under the shared answer: an ask stays an ask in the event, and only an
      approval realizes the allow. */
  function Finalize(eval: P.Evaluation, resolution: Option<AskResolution>): Resolved {
    if eval.decision != Ask then Resolved(eval.decision, eval.decision, None, ByPolicy(eval.matched), eval.wouldDeny)
    else
      var settled := if resolution.Some? then resolution.value else AskResolution.Denied;
      Resolved(Ask, if settled == Approved then Allow else Deny, Some(settled), ByPolicy(eval.matched), eval.wouldDeny)
  }

  predicate Allows(eval: P.Evaluation, resolution: Option<AskResolution>) {
    eval.decision == Allow || (eval.decision == Ask && resolution == Some(Approved))
  }

  lemma FinalizeAllows(eval: P.Evaluation, resolution: Option<AskResolution>)
    ensures Finalize(eval, resolution).response == Allow <==> Allows(eval, resolution)
  {}

  /** The position of the first evaluation that is not allowed, or the count. */
  function FirstRefused(evals: seq<P.Evaluation>, resolution: Option<AskResolution>): (i: nat)
    ensures i <= |evals| && (i < |evals| ==> !Allows(evals[i], resolution))
    ensures forall k :: 0 <= k < i ==> Allows(evals[k], resolution)
  {
    if evals == [] then 0
    else
      var i := FirstRefused(evals[..|evals| - 1], resolution);
      if i < |evals| - 1 || !Allows(evals[i], resolution) then i else |evals|
  }

  /** One decision for many evaluations: the first refusal, else the first evaluation, and a
      refusal when there is nothing to go by. */
  function Verdict(evals: seq<P.Evaluation>, resolution: Option<AskResolution>): Resolved {
    var i := FirstRefused(evals, resolution);
    if i < |evals| then Finalize(evals[i], resolution)
    else if evals != [] then Finalize(evals[0], resolution)
    else Fixed(Deny, Realization)
  }

  /** The answer is Allow exactly when there is something to allow and every evaluation is an
      Allow, or an Ask under an approval; a refusal names the first evaluation refused. */
  lemma VerdictLaw(evals: seq<P.Evaluation>, resolution: Option<AskResolution>)
    ensures var v := Verdict(evals, resolution);
            && (v.response == Allow <==> evals != [] && forall i :: 0 <= i < |evals| ==> Allows(evals[i], resolution))
            && (v.response != Allow && evals != [] ==>
                  exists i :: 0 <= i < |evals| && !Allows(evals[i], resolution) && v == Finalize(evals[i], resolution)
                    && forall k :: 0 <= k < i ==> Allows(evals[k], resolution))
            && v.response != Ask
  {
    var i := FirstRefused(evals, resolution);
    if i < |evals| {
      FinalizeAllows(evals[i], resolution);
    } else if evals != [] {
      FinalizeAllows(evals[0], resolution);
    }
  }

  /** The decision over two operands is the decision over their accesses in order. */
  lemma VerdictOfTwo(first: seq<P.Evaluation>, second: seq<P.Evaluation>, resolution: Option<AskResolution>)
    requires first != [] && second != []
    ensures Verdict(first + second, resolution) ==
            if Verdict(first, resolution).response != Allow then Verdict(first, resolution)
            else if Verdict(second, resolution).response != Allow then Verdict(second, resolution)
            else Verdict(first, resolution)
  {
    VerdictLaw(first, resolution);
    VerdictLaw(second, resolution);
    var both := first + second;
    var i, a, b := FirstRefused(both, resolution), FirstRefused(first, resolution), FirstRefused(second, resolution);
    assert forall k :: 0 <= k < |second| ==> both[|first| + k] == second[k];
    if a < |first| {
      assert i == a by {
        assert both[a] == first[a];
      }
    } else if b < |second| {
      assert both[|first| + b] == second[b];
      assert i == |first| + b by {
        if i >= |first| {
          assert both[i] == second[i - |first|];
        }
      }
    } else {
      forall k | 0 <= k < |both| ensures Allows(both[k], resolution) {
        if k >= |first| {
          assert both[k] == second[k - |first|];
        }
      }
    }
  }

  /** The evidence one operand's evaluations leave in the event, in order. */
  function Evidence(operand: FsOperand, access: seq<FsAccess>, evals: seq<P.Evaluation>,
                    resolution: Option<AskResolution>)
    : (evidence: seq<FsOperandDecision>)
    requires |access| == |evals|
    ensures |evidence| == |evals|
  {
    seq(|evals|, i requires 0 <= i < |evals| =>
      var d := Finalize(evals[i], resolution);
      FsOperandDecision(operand, access[i], d.event, d.ask, d.rule))
  }

  method FinalizeOperand(operand: FsOperand, access: seq<FsAccess>, evals: seq<P.Evaluation>,
                         resolution: Option<AskResolution>)
    returns (effective: Resolved, evidence: seq<FsOperandDecision>)
    requires |access| == |evals|
    ensures effective == Verdict(evals, resolution)
    ensures evidence == Evidence(operand, access, evals, resolution)
  {
    var firstAllow: Option<Resolved> := None;
    var firstDeny: Option<Resolved> := None;
    evidence := [];
    for i := 0 to |evals|
      invariant evidence == Evidence(operand, access, evals, resolution)[..i]
      invariant firstAllow == if i == 0 then None else Some(Finalize(evals[0], resolution))
      invariant firstDeny == if i <= FirstRefused(evals, resolution) then None
                             else Some(Finalize(evals[FirstRefused(evals, resolution)], resolution))
    {
      var decision := Finalize(evals[i], resolution);
      FinalizeAllows(evals[i], resolution);
      evidence := evidence + [FsOperandDecision(operand, access[i], decision.event, decision.ask, decision.rule)];
      if decision.response != Allow && firstDeny.None? {
        firstDeny := Some(decision);
      }
      if firstAllow.None? {
        firstAllow := Some(decision);
      }
    }
    effective := if firstDeny.Some? then firstDeny.value
                 else if firstAllow.Some? then firstAllow.value
                 else Fixed(Deny, Realization);
  }

  /** Whether an event's own words grant the action. */
  predicate Grants(e: SyscallEvent) {
    e.decision == Allow || (e.decision == Ask && e.askResolution == Some(Approved))
  }

  /** The first exact host, in rule order, whose resolved addresses include this one. */
  function ResolvedHostname(c: Config, ip: Host.Ip): Option<string> {
    if c.policy.None? || c.resolvedHosts.None? then None
    else FirstHostOf(c.policy.value.net, c.resolvedHosts.value, ip)
  }

  predicate NamesDestination(rule: P.NetRule, cache: map<string, seq<Host.Ip>>, ip: Host.Ip) {
    rule.host.Exact? && rule.host.name in cache && ip in cache[rule.host.name]
  }

  function FirstHostOf(rules: seq<P.NetRule>, cache: map<string, seq<Host.Ip>>, ip: Host.Ip): (name: Option<string>)
    ensures name.None? ==> forall i :: 0 <= i < |rules| ==> !NamesDestination(rules[i], cache, ip)
    ensures name.Some? ==>
              exists i :: 0 <= i < |rules| && NamesDestination(rules[i], cache, ip) && name == Some(rules[i].host.name)
                          && forall k :: 0 <= k < i ==> !NamesDestination(rules[k], cache, ip)
  {
    if rules == [] then None
    else if NamesDestination(rules[0], cache, ip) then Some(rules[0].host.name)
    else
      var name := FirstHostOf(rules[1..], cache, ip);
      assert forall i :: 0 < i < |rules| ==> rules[1..][i - 1] == rules[i];
      assert name.Some? ==> forall i :: 0 <= i < |rules[1..]| ==> rules[1..][i] == rules[i + 1];
      name
  }
}
