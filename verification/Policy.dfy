/** The validated policy and its evaluator: a request in, a decision and the deciding rule out. */
module Policy {
  import opened Wrappers
  import opened Vocabulary
  import Glob
  import Host
  import Text

  datatype Action = AllowRule | DenyRule | AskRule

  datatype FsMode = ReadMode | WriteMode | CreateMode | DeleteMode

  datatype FsRule = FsRule(path: Glob.Glob, modes: seq<FsMode>, action: Action)

  datatype NetRule = NetRule(host: Host.HostRule, port: Option<nat>, action: Action)

  datatype ExecRule = ExecRule(binary: Glob.Glob, action: Action)

  datatype Policy = Policy(workspace: string, fs: seq<FsRule>, net: seq<NetRule>, exec: seq<ExecRule>)

  datatype Request =
    | Fs(path: string, access: seq<FsAccess>)
    | Net(ip: Host.Ip, hostname: Option<string>, port: nat)
    | Exec(binary: string)

  datatype Family = FsFamily | NetFamily | ExecFamily

  /** What decided a request; rule positions count from 1. */
  datatype MatchId =
    | Rule(family: Family, index: nat)
    | WorkspaceBaseAllow
    | BaseEnforce
    | BaseRecordOnly

  datatype Evaluation = Evaluation(decision: Decision, matched: MatchId, wouldDeny: bool)

  const MAX_PORT: nat := 65535

  /** A rule names no port, or one a connection can target. */
  predicate ValidPort(port: Option<nat>) {
    port.Some? ==> 1 <= port.value <= MAX_PORT
  }

  /** What loading guarantees: every glob is a compiled one, every host rule a parsed one, every port
      one of the 65535 there are. */
  ghost predicate Loaded(p: Policy) {
    && (forall i :: 0 <= i < |p.fs| ==> Glob.Compiled(p.fs[i].path) && p.fs[i].modes != [])
    && (forall i :: 0 <= i < |p.net| ==> Host.WellFormed(p.net[i].host) && ValidPort(p.net[i].port))
    && (forall i :: 0 <= i < |p.exec| ==> Glob.Compiled(p.exec[i].binary))
  }

  predicate Covers(m: FsMode, a: FsAccess) {
    match (m, a)
    case (ReadMode, Read) => true
    case (WriteMode, Write) => true
    case (CreateMode, Create) => true
    case (DeleteMode, Delete) => true
    case _ => false
  }

  function ModeFor(a: FsAccess): (m: FsMode)
    ensures forall m' :: Covers(m', a) <==> m' == m
  {
    match a case Read => ReadMode case Write => WriteMode case Create => CreateMode case Delete => DeleteMode
  }

  predicate ModeIntersects(modes: seq<FsMode>, access: seq<FsAccess>) {
    exists i, j :: 0 <= i < |access| && 0 <= j < |modes| && Covers(modes[j], access[i])
  }

  predicate NetMatches(rule: NetRule, ip: Host.Ip, hostname: Option<string>, port: nat)
    requires Host.WellFormed(rule.host)
  {
    && (rule.port.Some? ==> rule.port.value == port)
    && (Host.MatchesIp(rule.host, ip) || (hostname.Some? && Host.MatchesHostname(rule.host, hostname.value)))
  }

  /** An exact match, or the workspace followed by a separator. */
  predicate PathUnderWorkspace(workspace: string, path: string) {
    || path == workspace
    || (|path| > |workspace| && path[..|workspace|] == workspace && path[|workspace|] == '/')
  }

  function AsDecision(a: Action): Decision {
    match a case AllowRule => Allow case DenyRule => Deny case AskRule => Ask
  }

  predicate FsRuleMatches(rule: FsRule, path: string, access: seq<FsAccess>) {
    Glob.Matches(rule.path, path) && ModeIntersects(rule.modes, access)
  }

  // ----- first match -----

  /** The position of the first rule from `i` on that matches, or none. */
  function FirstFs(rules: seq<FsRule>, path: string, access: seq<FsAccess>, i: nat): (r: Option<nat>)
    requires i <= |rules|
    decreases |rules| - i
    ensures r.Some? ==> i <= r.value < |rules| && FsRuleMatches(rules[r.value], path, access)
    ensures forall k :: i <= k < (if r.Some? then r.value else |rules|) ==> !FsRuleMatches(rules[k], path, access)
  {
    if i == |rules| then None
    else if FsRuleMatches(rules[i], path, access) then Some(i)
    else FirstFs(rules, path, access, i + 1)
  }

  function FirstNet(rules: seq<NetRule>, ip: Host.Ip, hostname: Option<string>, port: nat, i: nat): (r: Option<nat>)
    requires i <= |rules| && forall k :: 0 <= k < |rules| ==> Host.WellFormed(rules[k].host)
    decreases |rules| - i
    ensures r.Some? ==> i <= r.value < |rules| && NetMatches(rules[r.value], ip, hostname, port)
    ensures forall k :: i <= k < (if r.Some? then r.value else |rules|) ==> !NetMatches(rules[k], ip, hostname, port)
  {
    if i == |rules| then None
    else if NetMatches(rules[i], ip, hostname, port) then Some(i)
    else FirstNet(rules, ip, hostname, port, i + 1)
  }

  function FirstExec(rules: seq<ExecRule>, binary: string, i: nat): (r: Option<nat>)
    requires i <= |rules|
    decreases |rules| - i
    ensures r.Some? ==> i <= r.value < |rules| && Glob.Matches(rules[r.value].binary, binary)
    ensures forall k :: i <= k < (if r.Some? then r.value else |rules|) ==> !Glob.Matches(rules[k].binary, binary)
  {
    if i == |rules| then None
    else if Glob.Matches(rules[i].binary, binary) then Some(i)
    else FirstExec(rules, binary, i + 1)
  }

  /** The verdict of the table for the request's family; for a path no rule matches, the
      workspace base allow. */
  function FirstMatch(p: Policy, request: Request): Option<(Action, MatchId)>
    requires Loaded(p)
  {
    match request
    case Fs(path, access) =>
      (match FirstFs(p.fs, path, access, 0)
       case Some(i) => Some((p.fs[i].action, Rule(FsFamily, i + 1)))
       case None =>
         if PathUnderWorkspace(p.workspace, path) then Some((AllowRule, WorkspaceBaseAllow)) else None)
    case Net(ip, hostname, port) =>
      (match FirstNet(p.net, ip, hostname, port, 0)
       case Some(i) => Some((p.net[i].action, Rule(NetFamily, i + 1)))
       case None => None)
    case Exec(binary) =>
      (match FirstExec(p.exec, binary, 0)
       case Some(i) => Some((p.exec[i].action, Rule(ExecFamily, i + 1)))
       case None => None)
  }

  function Evaluate(p: Policy, request: Request, mode: Mode): Evaluation
    requires Loaded(p)
  {
    var (verdict, matched) :=
      match FirstMatch(p, request)
      case Some(m) => m
      case None => (DenyRule, if mode == Enforce then BaseEnforce else BaseRecordOnly);
    if mode == Enforce then Evaluation(AsDecision(verdict), matched, false)
    else Evaluation(Allow, matched, verdict == DenyRule)
  }

  // ----- what evaluation promises -----

  /** Record-only enforces nothing, and flags exactly what enforcing would have denied. */
  lemma RecordOnlyFlagsWhatEnforceDenies(p: Policy, request: Request)
    requires Loaded(p)
    ensures Evaluate(p, request, RecordOnly).decision == Allow
    ensures Evaluate(p, request, RecordOnly).wouldDeny <==> Evaluate(p, request, Enforce).decision == Deny
  {}

  /** The decision an action stands for, as the policy file spells it. */
  predicate Stands(action: Action, decision: Decision) {
    (action.AllowRule? && decision.Allow?) || (action.DenyRule? && decision.Deny?) || (action.AskRule? && decision.Ask?)
  }

  /** A filesystem rule in its own words: the pattern matches and one of the modes is one of the
      requested accesses. */
  predicate FsRuleApplies(rule: FsRule, path: string, access: seq<FsAccess>) {
    && Glob.Matches(rule.path, path)
    && ((ReadMode in rule.modes && Read in access) || (WriteMode in rule.modes && Write in access)
        || (CreateMode in rule.modes && Create in access) || (DeleteMode in rule.modes && Delete in access))
  }

  lemma FsRuleReads(rule: FsRule, path: string, access: seq<FsAccess>)
    ensures FsRuleMatches(rule, path, access) <==> FsRuleApplies(rule, path, access)
  {
    hide Glob.Matches;
    if FsRuleApplies(rule, path, access) {
      var (mode, a) := if ReadMode in rule.modes && Read in access then (ReadMode, Read)
                       else if WriteMode in rule.modes && Write in access then (WriteMode, Write)
                       else if CreateMode in rule.modes && Create in access then (CreateMode, Create)
                       else (DeleteMode, Delete);
      var i :| 0 <= i < |access| && access[i] == a;
      var j :| 0 <= j < |rule.modes| && rule.modes[j] == mode;
      assert Covers(rule.modes[j], access[i]);
    }
  }

  /** Under the workspace: the workspace itself, or what is written behind it and a separator. */
  lemma WorkspaceReads(workspace: string, path: string)
    ensures PathUnderWorkspace(workspace, path) <==> path == workspace || exists rest :: path == workspace + "/" + rest
  {
    if path != workspace && PathUnderWorkspace(workspace, path) {
      assert path == workspace + "/" + path[|workspace| + 1..];
    }
  }

  /** A rule decides a path only if no earlier rule applies to it, and then its action is the
      decision; with no rule, the workspace is allowed and everything else denied. */
  lemma FirstFsRuleDecides(p: Policy, path: string, access: seq<FsAccess>)
    requires Loaded(p)
    ensures var e := Evaluate(p, Fs(path, access), Enforce);
            if exists i :: 0 <= i < |p.fs| && FsRuleApplies(p.fs[i], path, access) then
              exists i :: 0 <= i < |p.fs| && FsRuleApplies(p.fs[i], path, access)
                && (forall k :: 0 <= k < i ==> !FsRuleApplies(p.fs[k], path, access))
                && Stands(p.fs[i].action, e.decision) && e.matched == Rule(FsFamily, i + 1)
            else if path == p.workspace || exists rest :: path == p.workspace + "/" + rest then
              e.decision == Allow && e.matched == WorkspaceBaseAllow
            else e.decision == Deny && e.matched == BaseEnforce
  {
    hide FirstFs, FsRuleMatches, FsRuleApplies, PathUnderWorkspace, Loaded;
    WorkspaceReads(p.workspace, path);
    forall i | 0 <= i < |p.fs|
      ensures FsRuleMatches(p.fs[i], path, access) <==> FsRuleApplies(p.fs[i], path, access)
    {
      FsRuleReads(p.fs[i], path, access);
    }
    var first := FirstFs(p.fs, path, access, 0);
    if first.Some? {
      assert FsRuleApplies(p.fs[first.value], path, access);
    }
  }

  /** A network rule in its own words: the port is absent or equal; the host is anything, this
      address, a block that holds it, the name in any case, or a wildcard with something and a dot
      in front of its suffix. */
  ghost predicate NetRuleApplies(rule: NetRule, ip: Host.Ip, hostname: Option<string>, port: nat)
    requires Host.WellFormed(rule.host)
  {
    && (rule.port == None || rule.port == Some(port))
    && match rule.host
       case Any => true
       case Address(a) => a == ip
       case Cidr(addr, prefix) => Host.InBlock(addr, prefix, ip)
       case Exact(name) => hostname.Some? && Host.Lower(hostname.value) == Host.Lower(name)
       case Suffix(suffix) =>
         hostname.Some? && exists sub :: sub != "" && Host.Lower(hostname.value) == sub + "." + suffix
  }

  lemma NetRuleReads(rule: NetRule, ip: Host.Ip, hostname: Option<string>, port: nat)
    requires Host.WellFormed(rule.host) && ip.Valid()
    ensures NetMatches(rule, ip, hostname, port) <==> NetRuleApplies(rule, ip, hostname, port)
  {
    hide Host.CidrContains, Host.InBlock, Host.Lower;
    match rule.host
    case Cidr(addr, prefix) => Host.CidrAgreesOnLeadingBits(addr, prefix, ip);
    case Suffix(suffix) =>
      if hostname.Some? {
        Host.SuffixCoversStrictSubdomains(suffix, hostname.value);
      }
    case _ =>
  }

  /** The same for a destination: with no rule, enforcement denies. */
  lemma FirstNetRuleDecides(p: Policy, ip: Host.Ip, hostname: Option<string>, port: nat)
    requires Loaded(p) && ip.Valid()
    ensures var e := Evaluate(p, Net(ip, hostname, port), Enforce);
            if exists i :: 0 <= i < |p.net| && NetRuleApplies(p.net[i], ip, hostname, port) then
              exists i :: 0 <= i < |p.net| && NetRuleApplies(p.net[i], ip, hostname, port)
                && (forall k :: 0 <= k < i ==> !NetRuleApplies(p.net[k], ip, hostname, port))
                && Stands(p.net[i].action, e.decision) && e.matched == Rule(NetFamily, i + 1)
            else e.decision == Deny && e.matched == BaseEnforce
  {
    hide FirstNet, NetMatches, NetRuleApplies, Host.WellFormed;
    forall i | 0 <= i < |p.net|
      ensures NetMatches(p.net[i], ip, hostname, port) <==> NetRuleApplies(p.net[i], ip, hostname, port)
    {
      NetRuleReads(p.net[i], ip, hostname, port);
    }
    var first := FirstNet(p.net, ip, hostname, port, 0);
    if first.Some? {
      assert NetRuleApplies(p.net[first.value], ip, hostname, port);
    }
  }

  /** And for a program. */
  lemma FirstExecRuleDecides(p: Policy, binary: string)
    requires Loaded(p)
    ensures var e := Evaluate(p, Exec(binary), Enforce);
            if exists i :: 0 <= i < |p.exec| && Glob.Matches(p.exec[i].binary, binary) then
              exists i :: 0 <= i < |p.exec| && Glob.Matches(p.exec[i].binary, binary)
                && (forall k :: 0 <= k < i ==> !Glob.Matches(p.exec[k].binary, binary))
                && Stands(p.exec[i].action, e.decision) && e.matched == Rule(ExecFamily, i + 1)
            else e.decision == Deny && e.matched == BaseEnforce
  {
    hide FirstExec, Glob.Matches, Loaded;
    var first := FirstExec(p.exec, binary, 0);
    if first.Some? {
      assert Glob.Matches(p.exec[first.value].binary, binary);
    }
  }
}
