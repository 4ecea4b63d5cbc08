/** The coarse kernel hull derived from a policy, and why it never cuts off what the policy can
    allow. */
module Landlock {
  import opened Wrappers
  import opened Vocabulary
  import opened Text
  import P = Policy
  import Glob
  import Host

  /** One filesystem right per bit of the kernel's access mask. */
  datatype Right =
    | Execute | WriteFile | ReadFile | ReadDir | RemoveDir | RemoveFile
    | MakeChar | MakeDir | MakeReg | MakeSock | MakeFifo | MakeBlock | MakeSym
    | Refer | Truncate

  /** An access mask as the set of its bits. */
  type Rights = set<Right>

  const ABI_TRUNCATE: nat := 3
  const ABI_NET: nat := 4

  const MAKE_RIGHTS: Rights := {MakeChar, MakeDir, MakeReg, MakeSock, MakeFifo, MakeBlock, MakeSym}
  const READ_RIGHTS: Rights := {ReadFile, ReadDir}
  const WRITE_RIGHTS: Rights := {WriteFile, Truncate}
  const CREATE_RIGHTS: Rights := MAKE_RIGHTS + {Refer}
  const DELETE_RIGHTS: Rights := {RemoveDir, RemoveFile, Refer, Truncate}
  const DIRECTORY_ONLY_RIGHTS: Rights := {ReadDir, RemoveDir, Refer} + MAKE_RIGHTS

  datatype NetGrant = NoPorts | AllPorts | Ports(ports: set<nat>)

  /** Filesystem grants are keyed by path, and paths are equal when their components are. */
  datatype Hull = Hull(fs: map<Path, Rights>, net: NetGrant, handledFs: Rights)

  function HandledFsRights(abi: nat): Rights {
    {Execute, WriteFile, ReadFile, ReadDir, RemoveDir, RemoveFile, Refer} + MAKE_RIGHTS
    + (if abi >= ABI_TRUNCATE then {Truncate} else {})
  }

  function ModeRights(m: P.FsMode): Rights {
    match m
    case ReadMode => READ_RIGHTS
    case WriteMode => WRITE_RIGHTS
    case CreateMode => CREATE_RIGHTS
    case DeleteMode => DELETE_RIGHTS
  }

  function AnchorRights(rights: Rights, isDirectory: bool): Rights {
    if isDirectory then rights else rights - DIRECTORY_ONLY_RIGHTS
  }

  // ----- the hierarchy root of a pattern -----

  /** The position of the first metacharacter, or the length of the pattern. */
  function FirstMeta(pattern: string): (i: nat)
    ensures i <= |pattern|
    ensures '*' !in pattern[..i] && '?' !in pattern[..i]
    ensures i < |pattern| ==> pattern[i] == '*' || pattern[i] == '?'
  {
    if pattern == "" || pattern[0] == '*' || pattern[0] == '?' then 0
    else
      assert pattern == [pattern[0]] + pattern[1..];
      var i := FirstMeta(pattern[1..]);
      assert pattern[..i + 1] == [pattern[0]] + pattern[1..][..i];
      i + 1
  }

  function HierarchyRoot(pattern: string): string {
    var firstMeta := FirstMeta(pattern);
    var literal := pattern[..firstMeta];
    if firstMeta == |pattern| then literal
    else if literal != "" && literal[|literal| - 1] == '/' then
      var root := TrimEndSlashes(literal);
      if root == "" then "/" else root
    else if literal == "" then "/"
    else match LastSlash(literal)
      case Some(i) => if i == 0 then "/" else literal[..i]
      case None => "."
  }

  /** The first `n` segments hold no metacharacter: a matching path starts with just those
      components. */
  lemma LiteralPrefix(g: Glob.Glob, path: string, n: nat)
    requires Glob.Compiled(g) && Glob.Matches(g, path) && n <= |g.segments|
    requires forall k :: 0 <= k < n ==> '*' !in Split(g.raw)[k] && '?' !in Split(g.raw)[k]
    ensures n <= |Split(path)| && Split(path)[..n] == Split(g.raw)[..n]
    ensures n == |g.segments| ==> Split(path) == Split(g.raw)
  {
    var parts, comps := Split(g.raw), Split(path);
    assert "**"[0] == '*';
    forall m | 0 <= m < n ensures !g.segments[m].DoubleStar? {
      assert '*' !in parts[m];
    }
    Glob.SegmentsFixedWidth(g.segments, comps, 0, n, 0);
    forall m | 0 <= m < n ensures comps[m] == parts[m] {
      assert Glob.SegmentAccepts(g.segments[m], comps[0 + (m - 0)]);
      Glob.LiteralComponent(parts[m], comps[m]);
    }
  }

  lemma LiteralSplit(a: string, rest: string, k: nat)
    requires '*' !in a && '?' !in a && k < |Split(a)|
    ensures k < |Split(a + "/" + rest)| && Split(a + "/" + rest)[k] == Split(a)[k]
    ensures '*' !in Split(a)[k] && '?' !in Split(a)[k]
  {
    SplitAppend(a, rest);
    if '*' in Split(a)[k] { SplitKeepsCharacters(a, k, '*'); }
    if '?' in Split(a)[k] { SplitKeepsCharacters(a, k, '?'); }
  }

  /** A pattern `a/rest` with literal `a` matches only paths below `a`. */
  lemma BelowLiteralDirectory(g: Glob.Glob, a: string, rest: string, path: string)
    requires Glob.Compiled(g) && Glob.Matches(g, path) && Absolute(path)
    requires g.raw == a + "/" + rest && '*' !in a && '?' !in a
    ensures a == "" || Absolute(a)
    ensures ["/"] + Named(Split(a)) <= Components(path)
  {
    var n := |Split(a)|;
    SplitAppend(a, rest);
    forall k | 0 <= k < n ensures '*' !in Split(g.raw)[k] && '?' !in Split(g.raw)[k] {
      LiteralSplit(a, rest, k);
    }
    LiteralPrefix(g, path, n);
    assert Split(g.raw)[..n] == Split(a);
    var comps := Split(path);
    assert comps == Split(a) + comps[n..];
    NamedAppend(Split(a), comps[n..]);
    SplitOfAbsolute(path);
    assert Split(a)[0] == comps[..n][0] == "";
    SplitStartsEmpty(a);
  }

  /** Every absolute path a compiled pattern matches lies at or below the pattern's hierarchy
      root, component by component. */
  lemma HierarchyRootIsAncestor(g: Glob.Glob, path: string)
    requires Glob.Compiled(g) && Glob.Matches(g, path) && Absolute(path)
    ensures Beneath(Components(HierarchyRoot(g.raw)), Components(path))
  {
    var raw, m := g.raw, FirstMeta(g.raw);
    var literal := raw[..m];
    if m == |raw| {
      assert raw[..m] == raw;
      WholePatternLiteral(g, path);
    } else if literal == "" {
      RootIsAncestor(path);
    } else {
      match LastSlash(literal)
      case None => RelativePatternMissesAbsolute(g, path);
      case Some(i) => BelowLastSlash(g, path, literal, i);
    }
  }

  lemma BelowLastSlash(g: Glob.Glob, path: string, literal: string, i: nat)
    requires Glob.Compiled(g) && Glob.Matches(g, path) && Absolute(path)
    requires FirstMeta(g.raw) < |g.raw| && literal == g.raw[..FirstMeta(g.raw)] && LastSlash(literal) == Some(i)
    ensures Beneath(Components(HierarchyRoot(g.raw)), Components(path))
  {
    hide HierarchyRoot, Components, Split, Glob.Matches, Glob.Compiled;
    var a, tail, rest := literal[..i], literal[i + 1..], g.raw[FirstMeta(g.raw)..];
    assert literal == a + "/" + tail;
    assert g.raw == literal + rest == a + "/" + (tail + rest);
    BelowLiteralDirectory(g, a, tail + rest, path);
    RootOfDirectory(g.raw, a, tail);
  }

  /** The root of a pattern whose literal part is `a/tail`, as text. */
  lemma RootText(pattern: string, a: string, tail: string)
    requires FirstMeta(pattern) < |pattern| && pattern[..FirstMeta(pattern)] == a + "/" + tail
    requires '/' !in tail
    ensures var kept := if tail == "" then TrimEndSlashes(a) else a;
            HierarchyRoot(pattern) == if kept == "" then "/" else kept
  {
    var literal := a + "/" + tail;
    if tail == "" {
      assert literal == a + "/";
      assert (a + "/")[..|a + "/"| - 1] == a;
    } else {
      assert literal[|literal| - 1] == tail[|tail| - 1];
      LastSlashBeforeTail(a, tail);
      assert literal[..|a|] == a;
    }
  }

  /** The components of that root name exactly what `a` names. */
  lemma RootOfDirectory(pattern: string, a: string, tail: string)
    requires FirstMeta(pattern) < |pattern| && pattern[..FirstMeta(pattern)] == a + "/" + tail
    requires '/' !in tail && (a == "" || Absolute(a))
    ensures Components(HierarchyRoot(pattern)) == ["/"] + Named(Split(a))
  {
    RootText(pattern, a, tail);
    TrimKeepsNames(a);
    var trimmed := TrimEndSlashes(a);
    assert trimmed != "" ==> trimmed[0] == a[0];
    assert Named(Split("")) == [];
    RootComponents();
  }

  lemma RootComponents()
    ensures Components("/") == ["/"]
  {
    assert Split("/") == [""] + Split("/"[1..]);
  }

  lemma RootIsAncestor(path: string)
    requires Absolute(path)
    ensures Beneath(Components("/"), Components(path))
  {
    RootComponents();
  }

  lemma WholePatternLiteral(g: Glob.Glob, path: string)
    requires Glob.Compiled(g) && Glob.Matches(g, path)
    requires '*' !in g.raw && '?' !in g.raw
    ensures path == g.raw
  {
    forall k | 0 <= k < |g.segments| ensures '*' !in Split(g.raw)[k] && '?' !in Split(g.raw)[k] {
      if '*' in Split(g.raw)[k] { SplitKeepsCharacters(g.raw, k, '*'); }
      if '?' in Split(g.raw)[k] { SplitKeepsCharacters(g.raw, k, '?'); }
    }
    LiteralPrefix(g, path, |g.segments|);
    JoinSplit(path);
    JoinSplit(g.raw);
  }

  /** A pattern whose first component opens with a literal character matches no absolute path,
      which is why its root may be the meaningless ".". */
  lemma RelativePatternMissesAbsolute(g: Glob.Glob, path: string)
    requires Glob.Compiled(g) && Absolute(path) && g.raw[0] !in "/*?"
    ensures !Glob.Matches(g, path)
  {
    var first := Split(g.raw)[0];
    assert g.raw[0] != '/';
    assert first[0] == g.raw[0];
    LiteralHeadRefusesEmpty(first);
    SplitOfAbsolute(path);
  }

  lemma LiteralHeadRefusesEmpty(first: string)
    requires first != "" && first[0] !in "*?"
    ensures Glob.ToSegment(first).Pattern? && !Glob.SegmentAccepts(Glob.ToSegment(first), "")
  {
    assert "**"[0] == '*';
    assert Glob.ToUnits(first)[0] == Glob.Literal(first[0]);
  }

  // ----- deriving the hull -----

  /** Deny rules never subtract from the hull; an ask could become an allow. */
  predicate Permits(action: P.Action) {
    action.AllowRule? || action.AskRule?
  }

  function UnionOfModes(modes: seq<P.FsMode>): Rights {
    if modes == [] then {} else UnionOfModes(modes[..|modes| - 1]) + ModeRights(modes[|modes| - 1])
  }

  function RightsOfModes(modes: seq<P.FsMode>, abi: nat): Rights {
    UnionOfModes(modes) * HandledFsRights(abi)
  }

  const ALL_MODES: seq<P.FsMode> := [P.ReadMode, P.WriteMode, P.CreateMode, P.DeleteMode]

  method FsModesToRights(modes: seq<P.FsMode>, abi: nat) returns (r: Rights)
    ensures r == RightsOfModes(modes, abi)
  {
    var rights: Rights := {};
    for i := 0 to |modes|
      invariant rights == UnionOfModes(modes[..i])
    {
      assert modes[..i + 1][..i] == modes[..i];
      rights := rights + ModeRights(modes[i]);
    }
    assert modes[..|modes|] == modes;
    r := rights * HandledFsRights(abi);
  }

  function AddFsGrant(fs: map<Path, Rights>, root: Path, rights: Rights): map<Path, Rights> {
    fs[root := if root in fs then fs[root] + rights else rights]
  }

  function FsRuleRoot(rule: P.FsRule): Path {
    Components(HierarchyRoot(rule.path.raw))
  }

  function ExecRuleRoot(rule: P.ExecRule): Path {
    Components(HierarchyRoot(rule.binary.raw))
  }

  function AddFsRules(fs: map<Path, Rights>, rules: seq<P.FsRule>, abi: nat): map<Path, Rights> {
    if rules == [] then fs
    else
      var rule := rules[|rules| - 1];
      var before := AddFsRules(fs, rules[..|rules| - 1], abi);
      if Permits(rule.action) then AddFsGrant(before, FsRuleRoot(rule), RightsOfModes(rule.modes, abi)) else before
  }

  function AddExecRules(fs: map<Path, Rights>, rules: seq<P.ExecRule>): map<Path, Rights> {
    if rules == [] then fs
    else
      var rule := rules[|rules| - 1];
      var before := AddExecRules(fs, rules[..|rules| - 1]);
      if Permits(rule.action) then AddFsGrant(before, ExecRuleRoot(rule), {Execute}) else before
  }

  function WorkspaceGrant(p: P.Policy, abi: nat): map<Path, Rights> {
    AddFsGrant(map[], Components(p.workspace), RightsOfModes(ALL_MODES, abi))
  }

  function FsGrants(p: P.Policy, abi: nat): map<Path, Rights> {
    AddExecRules(AddFsRules(WorkspaceGrant(p, abi), p.fs, abi), p.exec)
  }

  ghost predicate AnyPort(rules: seq<P.NetRule>) {
    exists i :: 0 <= i < |rules| && Permits(rules[i].action) && rules[i].port.None?
  }

  function PermittedPorts(rules: seq<P.NetRule>): set<nat> {
    set i | 0 <= i < |rules| && Permits(rules[i].action) && rules[i].port.Some? :: rules[i].port.value
  }

  ghost function NetGrantOf(rules: seq<P.NetRule>): NetGrant {
    if AnyPort(rules) then AllPorts
    else if PermittedPorts(rules) == {} then NoPorts
    else Ports(PermittedPorts(rules))
  }

  method DeriveNetGrant(p: P.Policy) returns (net: NetGrant)
    ensures net == NetGrantOf(p.net)
    ensures net == AllPorts <==> AnyPort(p.net)
    ensures net.Ports? ==> net.ports == PermittedPorts(p.net) && net.ports != {}
    ensures net == NoPorts <==> !AnyPort(p.net) && PermittedPorts(p.net) == {}
  {
    var ports: set<nat> := {};
    for i := 0 to |p.net|
      invariant !AnyPort(p.net[..i])
      invariant ports == PermittedPorts(p.net[..i])
    {
      var rule := p.net[i];
      assert p.net[..i + 1] == p.net[..i] + [rule];
      assert forall k :: 0 <= k < i ==> p.net[..i + 1][k] == p.net[..i][k];
      if !Permits(rule.action) {
        assert PermittedPorts(p.net[..i + 1]) == PermittedPorts(p.net[..i]);
        continue;
      }
      if rule.port.None? {
        return AllPorts;
      }
      ports := ports + {rule.port.value};
      assert p.net[..i + 1][i] == rule;
      assert PermittedPorts(p.net[..i + 1]) == PermittedPorts(p.net[..i]) + {rule.port.value};
    }
    assert p.net[..|p.net|] == p.net;
    net := if ports == {} then NoPorts else Ports(ports);
  }

  method DeriveHull(p: P.Policy, abi: nat) returns (hull: Hull)
    ensures hull.fs == FsGrants(p, abi)
    ensures hull.net == NetGrantOf(p.net)
    ensures hull.handledFs == HandledFsRights(abi)
    ensures hull.net == AllPorts <==> AnyPort(p.net)
    ensures hull.net.Ports? ==> hull.net.ports == PermittedPorts(p.net) && hull.net.ports != {}
    ensures hull.net == NoPorts <==> !AnyPort(p.net) && PermittedPorts(p.net) == {}
  {
    var base := FsModesToRights(ALL_MODES, abi);
    var fs := AddFsGrant(map[], Components(p.workspace), base);
    for i := 0 to |p.fs|
      invariant fs == AddFsRules(WorkspaceGrant(p, abi), p.fs[..i], abi)
    {
      assert p.fs[..i + 1][..i] == p.fs[..i];
      if Permits(p.fs[i].action) {
        var rights := FsModesToRights(p.fs[i].modes, abi);
        fs := AddFsGrant(fs, FsRuleRoot(p.fs[i]), rights);
      }
    }
    assert p.fs[..|p.fs|] == p.fs;
    ghost var withFs := fs;
    for i := 0 to |p.exec|
      invariant fs == AddExecRules(withFs, p.exec[..i])
    {
      assert p.exec[..i + 1][..i] == p.exec[..i];
      if Permits(p.exec[i].action) {
        fs := AddFsGrant(fs, ExecRuleRoot(p.exec[i]), {Execute});
      }
    }
    assert p.exec[..|p.exec|] == p.exec;
    var net := DeriveNetGrant(p);
    hull := Hull(fs, net, HandledFsRights(abi));
  }

  lemma {:induction false} UnionHasEachMode(modes: seq<P.FsMode>, k: nat)
    requires k < |modes|
    ensures ModeRights(modes[k]) <= UnionOfModes(modes)
  {
    var init := modes[..|modes| - 1];
    if k < |modes| - 1 {
      UnionHasEachMode(init, k);
    }
  }

  // ----- the hull covers what the policy can allow -----

  /** The rights one access needs under one ABI. */
  function NeededRights(a: FsAccess, abi: nat): Rights {
    ModeRights(P.ModeFor(a)) * HandledFsRights(abi)
  }

  predicate Granted(fs: map<Path, Rights>, root: Path, needed: Rights) {
    root in fs && needed <= fs[root]
  }

  lemma AddKeepsGrants(fs: map<Path, Rights>, root: Path, rights: Rights, other: Path, needed: Rights)
    ensures Granted(fs, other, needed) ==> Granted(AddFsGrant(fs, root, rights), other, needed)
    ensures needed <= rights ==> Granted(AddFsGrant(fs, root, rights), root, needed)
  {}

  lemma {:induction false} FsRulesKeepGrants(fs: map<Path, Rights>, rules: seq<P.FsRule>, abi: nat, root: Path,
                                             needed: Rights)
    requires Granted(fs, root, needed)
    ensures Granted(AddFsRules(fs, rules, abi), root, needed)
  {
    if rules != [] {
      var init, rule := rules[..|rules| - 1], rules[|rules| - 1];
      FsRulesKeepGrants(fs, init, abi, root, needed);
      AddKeepsGrants(AddFsRules(fs, init, abi), FsRuleRoot(rule), RightsOfModes(rule.modes, abi), root, needed);
    }
  }

  lemma {:induction false} FsRuleIsGranted(fs: map<Path, Rights>, rules: seq<P.FsRule>, abi: nat, i: nat,
                                           needed: Rights)
    requires i < |rules| && Permits(rules[i].action) && needed <= RightsOfModes(rules[i].modes, abi)
    ensures Granted(AddFsRules(fs, rules, abi), FsRuleRoot(rules[i]), needed)
  {
    var init, rule := rules[..|rules| - 1], rules[|rules| - 1];
    if i < |rules| - 1 {
      FsRuleIsGranted(fs, init, abi, i, needed);
    }
    AddKeepsGrants(AddFsRules(fs, init, abi), FsRuleRoot(rule), RightsOfModes(rule.modes, abi),
      FsRuleRoot(rules[i]), needed);
  }

  lemma {:induction false} ExecRulesKeepGrants(fs: map<Path, Rights>, rules: seq<P.ExecRule>, root: Path,
                                               needed: Rights)
    requires Granted(fs, root, needed)
    ensures Granted(AddExecRules(fs, rules), root, needed)
  {
    if rules != [] {
      var init, rule := rules[..|rules| - 1], rules[|rules| - 1];
      ExecRulesKeepGrants(fs, init, root, needed);
      AddKeepsGrants(AddExecRules(fs, init), ExecRuleRoot(rule), {Execute}, root, needed);
    }
  }

  lemma {:induction false} ExecRuleIsGranted(fs: map<Path, Rights>, rules: seq<P.ExecRule>, i: nat)
    requires i < |rules| && Permits(rules[i].action)
    ensures Granted(AddExecRules(fs, rules), ExecRuleRoot(rules[i]), {Execute})
  {
    var init, rule := rules[..|rules| - 1], rules[|rules| - 1];
    if i < |rules| - 1 {
      ExecRuleIsGranted(fs, init, i);
    }
    AddKeepsGrants(AddExecRules(fs, init), ExecRuleRoot(rule), {Execute}, ExecRuleRoot(rules[i]), {Execute});
  }

  lemma ModesCarryAccess(modes: seq<P.FsMode>, access: FsAccess, abi: nat)
    requires P.ModeIntersects(modes, [access])
    ensures NeededRights(access, abi) <= RightsOfModes(modes, abi)
  {
    var i, j :| 0 <= i < |[access]| && 0 <= j < |modes| && P.Covers(modes[j], [access][i]);
    UnionHasEachMode(modes, j);
  }

  lemma WorkspaceIsGranted(p: P.Policy, abi: nat, access: FsAccess)
    ensures Granted(WorkspaceGrant(p, abi), Components(p.workspace), NeededRights(access, abi))
  {
    assert P.Covers(P.ModeFor(access), [access][0]);
    var j := match access case Read => 0 case Write => 1 case Create => 2 case Delete => 3;
    assert ALL_MODES[j] == P.ModeFor(access);
    ModesCarryAccess(ALL_MODES, access, abi);
  }

  lemma WorkspaceIsAncestor(workspace: string, path: string)
    requires Absolute(path) && P.PathUnderWorkspace(workspace, path)
    ensures Beneath(Components(workspace), Components(path))
  {
    if path != workspace {
      var rest := path[|workspace| + 1..];
      assert path == workspace + "/" + rest;
      if workspace == "" {
        assert Components("") == [];
      } else {
        ExtendedPathIsBeneath(workspace, rest);
      }
    }
  }

  /** Some grant at or above `path` carries all of `needed`. */
  ghost predicate Covered(fs: map<Path, Rights>, path: Path, needed: Rights) {
    exists root :: Granted(fs, root, needed) && Beneath(root, path)
  }

  /** The policy's verdict on one access to one absolute path is never cut off by the kernel:
      unless enforcement denies it, some grant above the path carries every right it needs. */
  lemma HullCoversFs(p: P.Policy, abi: nat, path: string, access: FsAccess)
    requires P.Loaded(p) && Absolute(path)
    requires P.Evaluate(p, P.Fs(path, [access]), Enforce).decision != Deny
    ensures Covered(FsGrants(p, abi), Components(path), NeededRights(access, abi))
  {
    var needed := NeededRights(access, abi);
    var base := WorkspaceGrant(p, abi);
    var withFs := AddFsRules(base, p.fs, abi);
    match P.FirstFs(p.fs, path, [access], 0)
    case Some(i) =>
      var rule := p.fs[i];
      ModesCarryAccess(rule.modes, access, abi);
      FsRuleIsGranted(base, p.fs, abi, i, needed);
      ExecRulesKeepGrants(withFs, p.exec, FsRuleRoot(rule), needed);
      HierarchyRootIsAncestor(rule.path, path);
    case None =>
      WorkspaceIsGranted(p, abi, access);
      FsRulesKeepGrants(base, p.fs, abi, Components(p.workspace), needed);
      ExecRulesKeepGrants(withFs, p.exec, Components(p.workspace), needed);
      WorkspaceIsAncestor(p.workspace, path);
  }

  /** The same for execution. */
  lemma HullCoversExec(p: P.Policy, abi: nat, binary: string)
    requires P.Loaded(p) && Absolute(binary)
    requires P.Evaluate(p, P.Exec(binary), Enforce).decision != Deny
    ensures Covered(FsGrants(p, abi), Components(binary), {Execute})
  {
    var i := P.FirstExec(p.exec, binary, 0).value;
    ExecRuleIsGranted(AddFsRules(WorkspaceGrant(p, abi), p.fs, abi), p.exec, i);
    HierarchyRootIsAncestor(p.exec[i].binary, binary);
  }

  /** And for the network: an undenied destination port is granted. */
  lemma HullCoversNet(p: P.Policy, ip: Host.Ip, hostname: Option<string>, port: nat)
    requires P.Loaded(p)
    requires P.Evaluate(p, P.Net(ip, hostname, port), Enforce).decision != Deny
    ensures AnyPort(p.net) || port in PermittedPorts(p.net)
  {
    var i := P.FirstNet(p.net, ip, hostname, port, 0).value;
    assert P.NetMatches(p.net[i], ip, hostname, port) && Permits(p.net[i].action);
  }

  // ----- and nothing else -----

  ghost predicate Within(fs: map<Path, Rights>, handled: Rights) {
    forall root :: root in fs ==> fs[root] <= handled
  }

  lemma AddWithin(fs: map<Path, Rights>, root: Path, rights: Rights, handled: Rights)
    requires Within(fs, handled) && rights <= handled
    ensures Within(AddFsGrant(fs, root, rights), handled)
  {}

  lemma {:induction false} FsRulesWithin(fs: map<Path, Rights>, rules: seq<P.FsRule>, abi: nat)
    requires Within(fs, HandledFsRights(abi))
    ensures Within(AddFsRules(fs, rules, abi), HandledFsRights(abi))
  {
    if rules != [] {
      var init, rule := rules[..|rules| - 1], rules[|rules| - 1];
      FsRulesWithin(fs, init, abi);
      AddWithin(AddFsRules(fs, init, abi), FsRuleRoot(rule), RightsOfModes(rule.modes, abi), HandledFsRights(abi));
    }
  }

  lemma {:induction false} ExecRulesWithin(fs: map<Path, Rights>, rules: seq<P.ExecRule>, abi: nat)
    requires Within(fs, HandledFsRights(abi))
    ensures Within(AddExecRules(fs, rules), HandledFsRights(abi))
  {
    if rules != [] {
      var init, rule := rules[..|rules| - 1], rules[|rules| - 1];
      ExecRulesWithin(fs, init, abi);
      AddWithin(AddExecRules(fs, init), ExecRuleRoot(rule), {Execute}, HandledFsRights(abi));
    }
  }

  /** Every grant stays within the rights the ruleset handles; the kernel would refuse more. */
  lemma GrantsAreHandled(p: P.Policy, abi: nat)
    ensures Within(FsGrants(p, abi), HandledFsRights(abi))
  {
    AddWithin(map[], Components(p.workspace), RightsOfModes(ALL_MODES, abi), HandledFsRights(abi));
    FsRulesWithin(WorkspaceGrant(p, abi), p.fs, abi);
    ExecRulesWithin(AddFsRules(WorkspaceGrant(p, abi), p.fs, abi), p.exec, abi);
  }

  predicate Hits(fs: map<Path, Rights>, root: Path, right: Right) {
    root in fs && right in fs[root]
  }

  /** The reason `right` is granted at `root`: the workspace or an allow or ask rule. */
  ghost predicate Justified(p: P.Policy, abi: nat, root: Path, right: Right) {
    || (root == Components(p.workspace) && right in RightsOfModes(ALL_MODES, abi))
    || (exists i :: 0 <= i < |p.fs| && Permits(p.fs[i].action) && FsRuleRoot(p.fs[i]) == root
                    && right in RightsOfModes(p.fs[i].modes, abi))
    || (exists i :: 0 <= i < |p.exec| && Permits(p.exec[i].action) && ExecRuleRoot(p.exec[i]) == root
                    && right == Execute)
  }

  lemma AddHits(fs: map<Path, Rights>, root: Path, rights: Rights, other: Path, right: Right)
    requires Hits(AddFsGrant(fs, root, rights), other, right)
    ensures Hits(fs, other, right) || (other == root && right in rights)
  {}

  lemma {:induction false} FsRulesHit(fs: map<Path, Rights>, rules: seq<P.FsRule>, abi: nat, root: Path, right: Right)
    requires Hits(AddFsRules(fs, rules, abi), root, right) && !Hits(fs, root, right)
    ensures exists i :: 0 <= i < |rules| && Permits(rules[i].action) && FsRuleRoot(rules[i]) == root
                        && right in RightsOfModes(rules[i].modes, abi)
  {
    var init, rule := rules[..|rules| - 1], rules[|rules| - 1];
    if Hits(AddFsRules(fs, init, abi), root, right) {
      FsRulesHit(fs, init, abi, root, right);
      var i :| 0 <= i < |init| && Permits(init[i].action) && FsRuleRoot(init[i]) == root
               && right in RightsOfModes(init[i].modes, abi);
      assert rules[i] == init[i];
    } else {
      AddHits(AddFsRules(fs, init, abi), FsRuleRoot(rule), RightsOfModes(rule.modes, abi), root, right);
    }
  }

  lemma {:induction false} ExecRulesHit(fs: map<Path, Rights>, rules: seq<P.ExecRule>, root: Path, right: Right)
    requires Hits(AddExecRules(fs, rules), root, right) && !Hits(fs, root, right)
    ensures exists i :: 0 <= i < |rules| && Permits(rules[i].action) && ExecRuleRoot(rules[i]) == root
                        && right == Execute
  {
    var init, rule := rules[..|rules| - 1], rules[|rules| - 1];
    if Hits(AddExecRules(fs, init), root, right) {
      ExecRulesHit(fs, init, root, right);
      var i :| 0 <= i < |init| && Permits(init[i].action) && ExecRuleRoot(init[i]) == root && right == Execute;
      assert rules[i] == init[i];
    } else {
      AddHits(AddExecRules(fs, init), ExecRuleRoot(rule), {Execute}, root, right);
    }
  }

  /** No right is granted anywhere without a rule, or the workspace, asking for it there. */
  lemma HullGrantsOnlyJustified(p: P.Policy, abi: nat, root: Path, right: Right)
    requires Hits(FsGrants(p, abi), root, right)
    ensures Justified(p, abi, root, right)
  {
    var base := WorkspaceGrant(p, abi);
    var withFs := AddFsRules(base, p.fs, abi);
    if !Hits(withFs, root, right) {
      ExecRulesHit(withFs, p.exec, root, right);
    } else if !Hits(base, root, right) {
      FsRulesHit(base, p.fs, abi, root, right);
    } else {
      AddHits(map[], Components(p.workspace), RightsOfModes(ALL_MODES, abi), root, right);
    }
  }

  // ----- the rules the kernel is given -----

  datatype Node = Missing | Directory | PlainFile

  /** The deepest ancestor of `path` that exists; a relative path may have none. */
  function AnchorAt(disk: Path -> Node, path: Path): (anchor: Option<Path>)
    ensures anchor.Some? ==> Beneath(anchor.value, path) && !disk(anchor.value).Missing?
    ensures forall q :: Beneath(q, path) && q != [] && !disk(q).Missing? ==> anchor.Some? && Beneath(q, anchor.value)
  {
    if path == [] then None
    else if !disk(path).Missing? then Some(path)
    else
      var parent := path[..|path| - 1];
      assert forall q :: Beneath(q, path) && q != path ==> Beneath(q, parent);
      AnchorAt(disk, parent)
  }

  method DeepestExistingAncestor(disk: Path -> Node, path: Path) returns (anchor: Option<Path>)
    ensures anchor == AnchorAt(disk, path)
  {
    if path != [] && !disk(path).Missing? {
      return Some(path);
    }
    var existing := path;
    while |existing| > 1
      invariant AnchorAt(disk, path) == AnchorAt(disk, existing)
      invariant existing == [] || disk(existing).Missing?
    {
      existing := existing[..|existing| - 1];
      if !disk(existing).Missing? {
        break;
      }
    }
    anchor := if existing == [] || disk(existing).Missing? then None else Some(existing);
  }

  /** Every grant could be anchored; otherwise there is no ruleset. */
  ghost predicate Opens(fs: map<Path, Rights>, disk: Path -> Node) {
    forall root :: root in fs ==> AnchorAt(disk, root).Some?
  }

  /** The rights of the rule loaded for the grant at `root`, and where it is anchored. */
  function RuleFor(fs: map<Path, Rights>, disk: Path -> Node, root: Path): (Path, Rights)
    requires root in fs && AnchorAt(disk, root).Some?
  {
    var anchor := AnchorAt(disk, root).value;
    (anchor, AnchorRights(fs[root], disk(anchor).Directory?))
  }

  /** Some loaded rule at or above `path` carries all of `needed`; a rule that stands on `path`
      itself, a plain file, may lack what means nothing there. */
  ghost predicate Enforced(fs: map<Path, Rights>, disk: Path -> Node, path: Path, needed: Rights)
    requires Opens(fs, disk)
  {
    exists root :: root in fs
      && var (anchor, rights) := RuleFor(fs, disk, root);
      && Beneath(anchor, path)
      && needed - (if anchor == path && disk(path).PlainFile? then DIRECTORY_ONLY_RIGHTS else {}) <= rights
  }

  /** Nothing lies beneath a plain file. */
  ghost predicate Reachable(disk: Path -> Node, path: Path) {
    forall q :: Beneath(q, path) && q != path ==> !disk(q).PlainFile?
  }

  lemma CoveredIsEnforced(fs: map<Path, Rights>, disk: Path -> Node, path: Path, needed: Rights)
    requires Opens(fs, disk) && Reachable(disk, path) && Covered(fs, path, needed)
    ensures Enforced(fs, disk, path, needed)
  {
    var root :| Granted(fs, root, needed) && Beneath(root, path);
    var anchor := RuleFor(fs, disk, root).0;
    assert Beneath(anchor, path);
    assert anchor != path ==> disk(anchor).Directory?;
  }

  /** The coverage survives anchoring and masking: for any disk on which the ruleset can be built
      and the path can be reached, what the policy does not deny is carried by one loaded rule at
      or above the path, less only what the path, if a plain file, has no use for. */
  lemma RulesetCoversFs(p: P.Policy, abi: nat, disk: Path -> Node, path: string, access: FsAccess)
    requires P.Loaded(p) && Absolute(path)
    requires Opens(FsGrants(p, abi), disk) && Reachable(disk, Components(path))
    requires P.Evaluate(p, P.Fs(path, [access]), Enforce).decision != Deny
    ensures Enforced(FsGrants(p, abi), disk, Components(path), NeededRights(access, abi))
  {
    hide P.Evaluate, P.Loaded, FsGrants, Components, NeededRights, Covered, Enforced, Reachable;
    HullCoversFs(p, abi, path, access);
    CoveredIsEnforced(FsGrants(p, abi), disk, Components(path), NeededRights(access, abi));
  }

  /** The rule loaded for the grant at `root` stands at or above `path` and carries `right`. */
  ghost predicate Carries(fs: map<Path, Rights>, disk: Path -> Node, root: Path, path: Path, right: Right)
    requires Opens(fs, disk)
  {
    root in fs && var (anchor, rights) := RuleFor(fs, disk, root); Beneath(anchor, path) && right in rights
  }

  lemma CoveredIsCarried(fs: map<Path, Rights>, disk: Path -> Node, path: Path, right: Right)
    requires Opens(fs, disk) && Covered(fs, path, {right}) && right !in DIRECTORY_ONLY_RIGHTS
    ensures exists root :: Carries(fs, disk, root, path, right)
  {
    var root :| Granted(fs, root, {right}) && Beneath(root, path);
    assert right in fs[root];
    assert Carries(fs, disk, root, path, right);
  }

  /** Masking never costs an execution anything, whatever is on the disk. */
  lemma RulesetCoversExec(p: P.Policy, abi: nat, disk: Path -> Node, binary: string)
    requires P.Loaded(p) && Absolute(binary) && Opens(FsGrants(p, abi), disk)
    requires P.Evaluate(p, P.Exec(binary), Enforce).decision != Deny
    ensures exists root :: Carries(FsGrants(p, abi), disk, root, Components(binary), Execute)
  {
    hide P.Evaluate, P.Loaded, FsGrants, Components, Covered, Carries, Opens;
    HullCoversExec(p, abi, binary);
    CoveredIsCarried(FsGrants(p, abi), disk, Components(binary), Execute);
  }

  /** And no loaded rule carries a right without the workspace or a permitting rule asking for it,
      rooted there or, where the root does not exist, below with nothing existing in between. */
  lemma RulesetIsJustified(p: P.Policy, abi: nat, disk: Path -> Node, root: Path, right: Right)
    requires Opens(FsGrants(p, abi), disk) && root in FsGrants(p, abi)
    requires right in RuleFor(FsGrants(p, abi), disk, root).1
    ensures Justified(p, abi, root, right) && right in HandledFsRights(abi)
    ensures var anchor := RuleFor(FsGrants(p, abi), disk, root).0;
            && Beneath(anchor, root)
            && forall q :: Beneath(q, root) && |q| > |anchor| ==> disk(q).Missing?
    ensures right in DIRECTORY_ONLY_RIGHTS ==> disk(RuleFor(FsGrants(p, abi), disk, root).0).Directory?
  {
    hide FsGrants, Justified, HandledFsRights;
    HullGrantsOnlyJustified(p, abi, root, right);
    GrantsAreHandled(p, abi);
  }

  // ----- the port rules -----

  function PortsUpTo(n: nat): (ports: set<nat>)
    ensures forall port :: port in ports <==> 1 <= port <= n
  {
    if n == 0 then {} else PortsUpTo(n - 1) + {n}
  }

  /** The ports a rule is loaded for; a grant of all ports is spelled out from 1. */
  function PortRules(net: NetGrant): set<nat> {
    match net
    case NoPorts => {}
    case AllPorts => PortsUpTo(P.MAX_PORT)
    case Ports(ports) => ports
  }

  method AddNetRules(net: NetGrant) returns (loaded: set<nat>)
    ensures loaded == PortRules(net)
  {
    match net
    case NoPorts => loaded := {};
    case AllPorts =>
      loaded := {};
      for port := 1 to P.MAX_PORT + 1
        invariant loaded == PortsUpTo(port - 1)
      {
        loaded := loaded + {port};
      }
    case Ports(ports) => loaded := ports;
  }

  /** The kernel lets a connection or bind to the port pass: it does not look at ports, or it has a
      rule for this one. */
  predicate PortOpen(abi: nat, net: NetGrant, port: nat) {
    abi >= ABI_NET ==> port in PortRules(net)
  }

  /** The hull must not deny what the policy permits. For ports that holds exactly where the ABI does
      not look at them, or the port is not 0: a rule without a port permits a bind to port 0, which
      asks for any free one, and no rule is loaded for that. */
  lemma RulesetCoversNet(p: P.Policy, abi: nat, ip: Host.Ip, hostname: Option<string>, port: nat)
    requires P.Loaded(p) && port <= P.MAX_PORT
    requires P.Evaluate(p, P.Net(ip, hostname, port), Enforce).decision != Deny
    ensures PortOpen(abi, NetGrantOf(p.net), port) <==> abi < ABI_NET || port != 0
  {
    hide P.Evaluate;
    HullCoversNet(p, ip, hostname, port);
    PermittedPortsAreValid(p);
  }

  lemma PermittedPortsAreValid(p: P.Policy)
    requires P.Loaded(p)
    ensures forall port :: port in PermittedPorts(p.net) ==> 1 <= port <= P.MAX_PORT
  {}

  /** A port rule is loaded only for a port a permitting rule names, or when one names none. */
  lemma PortRulesAreJustified(p: P.Policy, port: nat)
    requires P.Loaded(p) && port in PortRules(NetGrantOf(p.net))
    ensures 1 <= port <= P.MAX_PORT
    ensures exists i :: 0 <= i < |p.net| && Permits(p.net[i].action)
                        && (p.net[i].port.None? || p.net[i].port == Some(port))
  {
    PermittedPortsAreValid(p);
    if AnyPort(p.net) {
      var i :| 0 <= i < |p.net| && Permits(p.net[i].action) && p.net[i].port.None?;
      assert Permits(p.net[i].action);
    } else {
      var i :| 0 <= i < |p.net| && Permits(p.net[i].action) && p.net[i].port.Some? && p.net[i].port.value == port;
      assert Permits(p.net[i].action);
    }
  }

  /** Such a bind exists: with one rule for any host and any port, every bind to port 0 is allowed by
      the policy and denied by the kernel. */
  lemma PortZeroIsCutOff(abi: nat, ip: Host.Ip)
    requires abi >= ABI_NET
    ensures var p := P.Policy("/w", [], [P.NetRule(Host.Any, None, P.AllowRule)], []);
            && P.Loaded(p) && P.Evaluate(p, P.Net(ip, None, 0), Enforce).decision == Allow
            && !PortOpen(abi, NetGrantOf(p.net), 0)
  {
    var p := P.Policy("/w", [], [P.NetRule(Host.Any, None, P.AllowRule)], []);
    assert P.NetMatches(p.net[0], ip, None, 0);
    RulesetCoversNet(p, abi, ip, None, 0);
  }
}
