/** What the kernel looks for when an operation is performed, right by right, and that the hull holds
    it for whatever the policy lets through. */
module HullChecks {
  import opened Wrappers
  import opened Vocabulary
  import opened Invocations
  import Bits
  import F = Facts
  import Glob
  import L = Landlock
  import P = Policy
  import R = Registers
  import Text

  // ----- modes, read by right -----

  /** The modes that stand behind a right. Executing is behind none: only exec rules grant it. */
  function ModesBehind(right: L.Right): set<P.FsMode> {
    match right
    case ReadFile | ReadDir => {P.ReadMode}
    case WriteFile => {P.WriteMode}
    case Truncate => {P.WriteMode, P.DeleteMode}
    case MakeChar | MakeDir | MakeReg | MakeSock | MakeFifo | MakeBlock | MakeSym => {P.CreateMode}
    case RemoveDir | RemoveFile => {P.DeleteMode}
    case Refer => {P.CreateMode, P.DeleteMode}
    case Execute => {}
  }

  /** A mode grants the rights it stands behind and nothing outside its row. */
  lemma ModeGrantsItsRow(m: P.FsMode, right: L.Right)
    ensures right in L.ModeRights(m) <==> m in ModesBehind(right)
  {}

  lemma HandledRights(right: L.Right, abi: nat)
    ensures right in L.HandledFsRights(abi) <==> right != L.Truncate || abi >= 3
  {}

  lemma {:induction false} UnionByRow(modes: seq<P.FsMode>, right: L.Right)
    ensures right in L.UnionOfModes(modes) <==> exists m :: m in modes && m in ModesBehind(right)
  {
    hide ModesBehind, L.ModeRights;
    if modes != [] {
      var init, last := modes[..|modes| - 1], modes[|modes| - 1];
      assert modes == init + [last];
      UnionByRow(init, right);
      ModeGrantsItsRow(last, right);
    }
  }

  // ----- the rights granted at or above a path -----

  /** The policy asks for the right at or above the path: the workspace is there, or a permitting
      rule with a mode behind the right is rooted there, or for executing an exec rule. */
  ghost predicate AskedFor(p: P.Policy, abi: nat, path: Text.Path, right: L.Right) {
    && (right == L.Truncate ==> abi >= 3)
    && (|| (right != L.Execute && Text.Beneath(Text.Components(p.workspace), path))
        || (exists i, m :: 0 <= i < |p.fs| && L.Permits(p.fs[i].action) && Text.Beneath(L.FsRuleRoot(p.fs[i]), path)
                           && m in p.fs[i].modes && m in ModesBehind(right))
        || (right == L.Execute && exists i :: 0 <= i < |p.exec| && L.Permits(p.exec[i].action)
                                              && Text.Beneath(L.ExecRuleRoot(p.exec[i]), path)))
  }

  /** The hull holds a right at or above a path exactly when the policy asks for it there. */
  lemma GrantedExactlyWhenAskedFor(p: P.Policy, abi: nat, path: Text.Path, right: L.Right)
    ensures L.Covered(L.FsGrants(p, abi), path, {right}) <==> AskedFor(p, abi, path, right)
  {
    hide L.FsGrants, L.Covered, L.RightsOfModes, L.Justified, L.FsRuleRoot, L.ExecRuleRoot, L.Granted, Text.Components;
    hide Text.Beneath;
    if L.Covered(L.FsGrants(p, abi), path, {right}) {
      CoveredIsAskedFor(p, abi, path, right);
    }
    if AskedFor(p, abi, path, right) {
      AskedForIsCovered(p, abi, path, right);
    }
  }

  /** The rights of a list of modes, by row. */
  lemma RightsByRow(modes: seq<P.FsMode>, abi: nat, right: L.Right)
    ensures right in L.RightsOfModes(modes, abi) <==>
            (right == L.Truncate ==> abi >= 3) && exists m :: m in modes && m in ModesBehind(right)
  {
    hide ModesBehind, L.UnionOfModes;
    UnionByRow(modes, right);
    HandledRights(right, abi);
  }

  lemma AllModesByRow(abi: nat, right: L.Right)
    ensures right in L.RightsOfModes(L.ALL_MODES, abi) <==> (right == L.Truncate ==> abi >= 3) && right != L.Execute
  {
    hide L.UnionOfModes;
    RightsByRow(L.ALL_MODES, abi, right);
    assert forall m :: m in L.ALL_MODES <==>
      m == P.ReadMode || m == P.WriteMode || m == P.CreateMode || m == P.DeleteMode by {
      assert L.ALL_MODES[0] == P.ReadMode && L.ALL_MODES[1] == P.WriteMode;
      assert L.ALL_MODES[2] == P.CreateMode && L.ALL_MODES[3] == P.DeleteMode;
    }
    if right != L.Execute {
      var m :| m in ModesBehind(right);
      assert m in L.ALL_MODES;
    }
  }

  lemma CoveredIsAskedFor(p: P.Policy, abi: nat, path: Text.Path, right: L.Right)
    requires L.Covered(L.FsGrants(p, abi), path, {right})
    ensures AskedFor(p, abi, path, right)
  {
    hide L.FsGrants, L.RightsOfModes, L.FsRuleRoot, L.ExecRuleRoot, Text.Components, Text.Beneath, ModesBehind;
    var root :| L.Granted(L.FsGrants(p, abi), root, {right}) && Text.Beneath(root, path);
    assert right in L.FsGrants(p, abi)[root];
    L.HullGrantsOnlyJustified(p, abi, root, right);
    AllModesByRow(abi, right);
    forall i | 0 <= i < |p.fs| && right in L.RightsOfModes(p.fs[i].modes, abi)
      ensures (right == L.Truncate ==> abi >= 3) && exists m :: m in p.fs[i].modes && m in ModesBehind(right)
    {
      RightsByRow(p.fs[i].modes, abi, right);
    }
  }

  lemma AskedForIsCovered(p: P.Policy, abi: nat, path: Text.Path, right: L.Right)
    requires AskedFor(p, abi, path, right)
    ensures L.Covered(L.FsGrants(p, abi), path, {right})
  {
    hide L.RightsOfModes, L.FsRuleRoot, L.ExecRuleRoot, Text.Components, Text.Beneath, ModesBehind;
    hide L.AddFsRules, L.AddExecRules, L.WorkspaceGrant;
    var base := L.WorkspaceGrant(p, abi);
    var withFs := L.AddFsRules(base, p.fs, abi);
    if right != L.Execute && Text.Beneath(Text.Components(p.workspace), path) {
      AllModesByRow(abi, right);
      WorkspaceHas(p, abi, right);
      L.FsRulesKeepGrants(base, p.fs, abi, Text.Components(p.workspace), {right});
      L.ExecRulesKeepGrants(withFs, p.exec, Text.Components(p.workspace), {right});
    } else if i, m :| 0 <= i < |p.fs| && L.Permits(p.fs[i].action) && Text.Beneath(L.FsRuleRoot(p.fs[i]), path)
                      && m in p.fs[i].modes && m in ModesBehind(right) {
      RightsByRow(p.fs[i].modes, abi, right);
      L.FsRuleIsGranted(base, p.fs, abi, i, {right});
      L.ExecRulesKeepGrants(withFs, p.exec, L.FsRuleRoot(p.fs[i]), {right});
    } else {
      var i :| 0 <= i < |p.exec| && L.Permits(p.exec[i].action) && Text.Beneath(L.ExecRuleRoot(p.exec[i]), path);
      L.ExecRuleIsGranted(withFs, p.exec, i);
    }
  }

  lemma WorkspaceHas(p: P.Policy, abi: nat, right: L.Right)
    requires right in L.RightsOfModes(L.ALL_MODES, abi)
    ensures L.Granted(L.WorkspaceGrant(p, abi), Text.Components(p.workspace), {right})
  {
    hide L.RightsOfModes, Text.Components;
  }

  // ----- what the kernel looks for -----

  datatype Kind = Directory | Regular | Symlink | CharDevice | BlockDevice | NamedPipe | SocketFile

  function Making(kind: Kind): L.Right {
    match kind
    case Directory => L.MakeDir
    case Regular => L.MakeReg
    case Symlink => L.MakeSym
    case CharDevice => L.MakeChar
    case BlockDevice => L.MakeBlock
    case NamedPipe => L.MakeFifo
    case SocketFile => L.MakeSock
  }

  function Removing(kind: Kind): L.Right {
    if kind.Directory? then L.RemoveDir else L.RemoveFile
  }

  function When(condition: bool, right: L.Right): L.Rights {
    if condition then {right} else {}
  }

  /** What is known of an operand when the operation is performed: its kind, for a rename the kind of
      the other one, whether it exists, and whether the two lie in different directories. */
  datatype Circumstances = Circumstances(kind: Kind, other: Kind, existing: bool, across: bool)

  /** What the kernel looks for on the first operand, and on the second. Opening takes reading and
      writing by the access mode, truncating by bit 9, and making a regular file where none was;
      removing and making are told apart by kind; what moves or is linked between directories must
      be referable on both sides; and the kernel knows truncating from ABI 3 on. Owners and modes it
      does not look at. */
  function FirstNeeds(inv: FsInvocation, x: Circumstances, abi: nat): L.Rights {
    match inv
    case Open(flags, _, _) =>
      When(flags % 4 == 0 || flags % 4 == 2, if x.kind.Directory? then L.ReadDir else L.ReadFile)
      + When(flags % 4 == 1 || flags % 4 == 2, L.WriteFile)
      + When(Bits.Bit(flags, 9) && abi >= 3, L.Truncate)
      + When(Bits.Bit(flags, 6) && !x.existing, L.MakeReg)
    case Mutate(Truncate(_)) => When(abi >= 3, L.Truncate)
    case Mutate(Mkdir(_)) => {L.MakeDir}
    case Mutate(Symlink(_)) => {L.MakeSym}
    case Mutate(Unlink(flags)) => {if Bits.Bit(flags, 9) then L.RemoveDir else L.RemoveFile}
    case Mutate(Rename(flags)) =>
      {Removing(x.kind)} + When(Bits.Bit(flags, 1), Making(x.other)) + When(x.across, L.Refer)
    case Mutate(Link(_)) => When(x.across, L.Refer)
    case Mutate(Chmod(_)) | Mutate(Chown(_, _, _)) => {}
  }

  function SecondNeeds(inv: FsInvocation, x: Circumstances): L.Rights {
    match inv
    case Mutate(Rename(flags)) =>
      {Making(x.other)} + When(Bits.Bit(flags, 1) || x.existing, Removing(x.kind)) + When(x.across, L.Refer)
    case Mutate(Link(_)) => {Making(x.other)} + When(x.across, L.Refer)
    case _ => {}
  }

  /** A hard link between directories: the source is only asked to be readable, and the kernel wants
      it referable. */
  predicate LinksAcross(inv: FsInvocation, x: Circumstances) {
    inv.Mutate? && inv.mutation.Link? && x.across
  }

  /** Some demanded access brings the right with it. */
  ghost predicate Brings(access: seq<FsAccess>, right: L.Right) {
    exists a :: a in access && P.ModeFor(a) in ModesBehind(right)
  }

  /** Whatever the kernel looks for comes with an access that is demanded of the operand, but for
      the source of a hard link between directories. */
  lemma DemandsBringNeeds(inv: FsInvocation, access: seq<FsAccess>, x: Circumstances, abi: nat, right: L.Right)
    requires inv.Open? ==> access == F.OpenAccess(inv.flags)
    ensures right in FirstNeeds(inv, x, abi) && !LinksAcross(inv, x) ==> Brings(PrimaryAccess(inv, access), right)
    ensures right in SecondNeeds(inv, x) ==> Brings(SecondaryAccess(inv, x.existing), right)
    ensures right in FirstNeeds(inv, x, abi) || right in SecondNeeds(inv, x) ==> right == L.Truncate ==> abi >= 3
  {
    hide F.OpenAccess, ModesBehind, Brings;
    R.FollowBits();
    if inv.Open? {
      OpenBrings(inv, access, x, abi, right);
    } else {
      if inv.mutation.Rename? {
        Bits.AndSingleBit(inv.mutation.flags, 1);
      }
      MutationBrings(inv, access, x, abi, right);
    }
  }

  lemma BringsBy(access: seq<FsAccess>, a: FsAccess, right: L.Right)
    requires a in access && P.ModeFor(a) in ModesBehind(right)
    ensures Brings(access, right)
  {}

  lemma OpenBrings(inv: FsInvocation, access: seq<FsAccess>, x: Circumstances, abi: nat, right: L.Right)
    requires inv.Open? && access == F.OpenAccess(inv.flags)
    ensures right in FirstNeeds(inv, x, abi) ==> Brings(access, right) && (right == L.Truncate ==> abi >= 3)
  {
    hide F.OpenAccess, Brings;
    F.OpenAccessMeaning(inv.flags);
    if right in FirstNeeds(inv, x, abi) {
      var a := if right == L.ReadDir || right == L.ReadFile then Read else if right == L.MakeReg then Create else Write;
      BringsBy(access, a, right);
    }
  }

  lemma MutationBrings(inv: FsInvocation, access: seq<FsAccess>, x: Circumstances, abi: nat, right: L.Right)
    requires inv.Mutate?
    requires inv.mutation.Rename? ==> (Bits.Bit(inv.mutation.flags, 1) <==> F.Has(inv.mutation.flags, RENAME_EXCHANGE))
    ensures right in FirstNeeds(inv, x, abi) && !LinksAcross(inv, x) ==> Brings(PrimaryAccess(inv, access), right)
    ensures right in SecondNeeds(inv, x) ==> Brings(SecondaryAccess(inv, x.existing), right)
    ensures right in FirstNeeds(inv, x, abi) || right in SecondNeeds(inv, x) ==> right == L.Truncate ==> abi >= 3
  {
    hide Brings, Bits.Bit, F.Has;
    var a := if right == L.RemoveDir || right == L.RemoveFile then Delete
             else if right == L.Truncate then Write
             else Create;
    if right in FirstNeeds(inv, x, abi) && !LinksAcross(inv, x) {
      BringsBy(PrimaryAccess(inv, access), if right == L.Refer then Delete else a, right);
    }
    if right in SecondNeeds(inv, x) {
      BringsBy(SecondaryAccess(inv, x.existing), a, right);
    }
  }

  // ----- the exception is real -----

  /** Reading everywhere is allowed, by the pattern `**`, and nothing else. */
  function ReadAnywhere(): P.Policy {
    P.Policy("/w", [P.FsRule(ANYWHERE, [P.ReadMode], P.AllowRule)], [], [])
  }

  const ANYWHERE: Glob.Glob := Glob.Glob("**", [Glob.DoubleStar])

  lemma AnywhereMatches(path: string)
    ensures Glob.Compiled(ANYWHERE) && Glob.Matches(ANYWHERE, path)
  {
    var text := Text.Split(path);
    Text.SplitNoSlash("**");
    assert Glob.GoodComponent("**");
    Glob.SegmentsStarTakesAnyRun([Glob.DoubleStar], text, 0, 0);
    assert Glob.SegmentsMatchFrom([Glob.DoubleStar], text, 1, |text|);
  }

  lemma AnywhereDecides(path: string, access: FsAccess)
    ensures P.Loaded(ReadAnywhere())
    ensures var e := P.Evaluate(ReadAnywhere(), P.Fs(path, [access]), Enforce);
            e.decision == Allow <==> access == Read || P.PathUnderWorkspace("/w", path)
  {
    hide P.PathUnderWorkspace, Glob.Matches, Glob.Compiled;
    var p := ReadAnywhere();
    AnywhereMatches(path);
    P.FsRuleReads(p.fs[0], path, [access]);
  }

  /** With that policy a hard link from `/r/x` into the workspace is allowed, access by access, and the
      hull lacks what the kernel looks for at its source. */
  lemma LinkAcrossIsCutOff(abi: nat)
    ensures var p := ReadAnywhere();
            && P.Loaded(p)
            && P.Evaluate(p, P.Fs("/r/x", [Read]), Enforce).decision == Allow
            && P.Evaluate(p, P.Fs("/w/y", [Create]), Enforce).decision == Allow
            && !L.Covered(L.FsGrants(p, abi), Text.Components("/r/x"), {L.Refer})
  {
    hide P.Evaluate, P.Loaded, L.Covered, L.FsGrants, L.FsRuleRoot, Text.Components, Text.Beneath;
    AnywhereDecides("/r/x", Read);
    AnywhereDecides("/w/y", Create);
    assert "/w/y"[..2] == "/w";
    SourceIsOutside();
    GrantedExactlyWhenAskedFor(ReadAnywhere(), abi, Text.Components("/r/x"), L.Refer);
  }

  lemma SourceIsOutside()
    ensures !Text.Beneath(Text.Components("/w"), Text.Components("/r/x"))
  {
    hide Text.Split;
    NothingSplits();
    Text.SplitNoSlash("w");
    Text.SplitNoSlash("r");
    Text.SplitNoSlash("x");
    Text.SplitAppend("", "w");
    Text.SplitAppend("", "r");
    Text.SplitAppend("/r", "x");
    assert "" + "/" + "w" == "/w" && "" + "/" + "r" == "/r" && "/r" + "/" + "x" == "/r/x";
    assert Text.Split("/w") == ["", "w"] && Text.Split("/r/x") == ["", "r", "x"];
    assert Text.Named(["", "w"]) == ["w"] && Text.Named(["", "r", "x"]) == ["r", "x"];
    assert Text.Components("/w")[1] == "w" && Text.Components("/r/x")[1] == "r";
  }

  lemma NothingSplits()
    ensures Text.Split("") == [""]
  {}
}
