/** The calls by their C signatures: which register holds what. An account of its own against which
    the tables of the loop are read. */
module Registers {
  import opened Wrappers
  import opened Vocabulary
  import opened Syscalls
  import opened Invocations
  import opened Protocol
  import Bits
  import F = Facts
  import Filter
  import Text

  /** What a register carries. `Name` is text that is stored and names no operand. */
  datatype Param =
    | Dirfd | Path | Name | Flags | Mode | How | Size | Length | Uid | Gid
    | Socket | Buffer | Count | Address | AddressLength
    | Pid | Argv | CloneFlags | CloneArgs | Other

  /** The parameters of a call, in the order of its registers. */
  function Signature(nr: nat): seq<Param> {
    if nr == OPEN then [Path, Flags, Mode]
    else if nr == CREAT then [Path, Mode]
    else if nr == OPENAT then [Dirfd, Path, Flags, Mode]
    else if nr == OPENAT2 then [Dirfd, Path, How, Size]
    else if nr == TRUNCATE then [Path, Length]
    else if nr == RENAME || nr == LINK then [Path, Path]
    else if nr == RENAMEAT then [Dirfd, Path, Dirfd, Path]
    else if nr == RENAMEAT2 || nr == LINKAT then [Dirfd, Path, Dirfd, Path, Flags]
    else if nr == MKDIR || nr == CHMOD then [Path, Mode]
    else if nr == MKDIRAT || nr == FCHMODAT then [Dirfd, Path, Mode]
    else if nr == RMDIR || nr == UNLINK then [Path]
    else if nr == UNLINKAT then [Dirfd, Path, Flags]
    else if nr == SYMLINK then [Name, Path]
    else if nr == SYMLINKAT then [Name, Dirfd, Path]
    else if nr == CHOWN then [Path, Uid, Gid]
    else if nr == FCHOWNAT then [Dirfd, Path, Uid, Gid, Flags]
    else if nr == EXECVE then [Path, Argv, Argv]
    else if nr == EXECVEAT then [Dirfd, Path, Argv, Argv, Flags]
    else if nr == CONNECT || nr == BIND then [Socket, Address, AddressLength]
    else if nr == SENDTO then [Socket, Buffer, Count, Flags, Address, AddressLength]
    else if nr == CLONE then [CloneFlags, Other, Other, Other, Other]
    else if nr == CLONE3 then [CloneArgs, Size]
    else if nr == PTRACE then [Other, Pid, Other, Other]
    else if nr == PROCESS_VM_READV || nr == PROCESS_VM_WRITEV then [Pid, Other, Other, Other, Other, Flags]
    else []
  }

  /** Register `i` of the call carries `p`. */
  predicate Carries(nr: nat, i: nat, p: Param) {
    i < |Signature(nr)| && Signature(nr)[i] == p
  }

  predicate CarriesPath(nr: nat, i: nat) {
    Carries(nr, i, Path) || Carries(nr, i, Name)
  }

  /** A call of its own architecture, by number. */
  predicate Native(n: Notification) {
    n.data.arch == AUDIT_ARCH_X86_64 && n.data.nr < 0x4000_0000
  }

  // ----- families -----

  predicate IsFileCall(nr: nat) {
    || nr == OPEN || nr == CREAT || nr == OPENAT || nr == OPENAT2 || nr == TRUNCATE
    || nr == RENAME || nr == RENAMEAT || nr == RENAMEAT2 || nr == MKDIR || nr == MKDIRAT
    || nr == RMDIR || nr == UNLINK || nr == UNLINKAT || nr == LINK || nr == LINKAT
    || nr == SYMLINK || nr == SYMLINKAT || nr == CHMOD || nr == FCHMODAT || nr == CHOWN || nr == FCHOWNAT
  }

  predicate IsNetworkCall(nr: nat) { nr == CONNECT || nr == BIND || nr == SENDTO }

  predicate IsExec(nr: nat) { nr == EXECVE || nr == EXECVEAT }

  predicate IsCreation(nr: nat) { nr == CLONE || nr == CLONE3 || nr == FORK || nr == VFORK }

  predicate IsCrossCall(nr: nat) { nr == PTRACE || nr == PROCESS_VM_READV || nr == PROCESS_VM_WRITEV }

  predicate IsDeniedCall(nr: nat) {
    nr == PIDFD_GETFD || nr == IO_URING_SETUP || nr == IO_URING_ENTER || nr == IO_URING_REGISTER
  }

  /** Every call belongs to the family its name says. */
  lemma FamiliesByName(n: Notification)
    ensures FamilyOf(n).Foreign? <==> n.data.arch != AUDIT_ARCH_X86_64 || (n.data.nr / 0x4000_0000) % 2 == 1
    ensures Native(n) ==>
              && (FamilyOf(n).FileSystem? <==> IsFileCall(n.data.nr))
              && (FamilyOf(n).Execution? <==> IsExec(n.data.nr))
              && (FamilyOf(n).Creation? <==> IsCreation(n.data.nr))
              && (FamilyOf(n).Network? <==> IsNetworkCall(n.data.nr))
              && (FamilyOf(n).CrossControl? <==> IsCrossCall(n.data.nr))
              && (FamilyOf(n).AlwaysDenied? <==> IsDeniedCall(n.data.nr))
  {
    hide F.ShapeOf, IsFileCall, IsExec, IsCreation, IsNetworkCall, IsCrossCall, IsDeniedCall, FamilyOf;
    ForeignByBit(n);
    if Native(n) {
      NativeFamily(n);
    }
  }

  lemma ForeignByBit(n: Notification)
    ensures FamilyOf(n).Foreign? <==> n.data.arch != AUDIT_ARCH_X86_64 || (n.data.nr / 0x4000_0000) % 2 == 1
  {
    hide F.ShapeOf, Bits.And;
    Filter.X32IsBitThirty(n.data.nr);
  }

  lemma NativeFamily(n: Notification)
    requires !FamilyOf(n).Foreign?
    ensures FamilyOf(n).FileSystem? <==> IsFileCall(n.data.nr)
    ensures FamilyOf(n).Execution? <==> IsExec(n.data.nr)
    ensures FamilyOf(n).Creation? <==> IsCreation(n.data.nr)
    ensures FamilyOf(n).Network? <==> IsNetworkCall(n.data.nr)
    ensures FamilyOf(n).CrossControl? <==> IsCrossCall(n.data.nr)
    ensures FamilyOf(n).AlwaysDenied? <==> IsDeniedCall(n.data.nr)
  {
    hide F.ShapeOf, IsFileCall, Bits.And;
    DeniedByName(n.data.nr);
    FilesByName(n.data.nr);
  }

  lemma DeniedByName(nr: nat)
    ensures nr in DENIED_RECORDED <==> IsDeniedCall(nr)
  {}

  /** The table of file calls holds just these, and none of the others. */
  lemma FilesByName(nr: nat)
    ensures F.ShapeOf(nr).Some? <==> IsFileCall(nr)
    ensures IsFileCall(nr) ==>
              !IsExec(nr) && !IsCreation(nr) && !IsNetworkCall(nr) && !IsCrossCall(nr) && !IsDeniedCall(nr)
  {}

  predicate IsMediated(nr: nat) {
    IsFileCall(nr) || IsExec(nr) || IsCreation(nr) || IsNetworkCall(nr) || IsCrossCall(nr) || IsDeniedCall(nr)
  }

  /** The filter's tables hold just these calls. */
  lemma TablesByName(nr: nat)
    ensures nr in MEDIATED + DENIED_RECORDED <==> IsMediated(nr)
  {}

  /** What the loop mediates and what the filter raises are the same calls: foreign and x32 ones, and
      those of a family, but for a send without a destination. */
  lemma MediatedIsRaised(n: Notification)
    ensures Raisable(n) <==>
            FamilyOf(n).Foreign? || (!FamilyOf(n).Unmediated? && !Filter.ConnectedSend(n.data))
  {
    TablesByName(n.data.nr);
  }

  /** So for any program that does what the tables say, a native call notifies exactly if its name is
      one of the mediated ones and it is not a send without a destination; every other entry does. */
  lemma NamedCallsNotify(prog: seq<Filter.Insn>, n: Notification)
    requires Filter.Decides(prog, MEDIATED + DENIED_RECORDED) && Filter.ValidData(n.data)
    ensures Filter.Exec(prog, n.data, 0, 0, |prog| + 1) ==
            if n.data.arch != AUDIT_ARCH_X86_64 || (n.data.nr / 0x4000_0000) % 2 == 1
               || (IsMediated(n.data.nr) && !(n.data.nr == SENDTO && n.data.args[4] == 0))
            then Ok(Filter.RET_USER_NOTIF) else Ok(Filter.RET_ALLOW)
  {
    hide Filter.Exec;
    TablesByName(n.data.nr);
    Filter.X32IsBitThirty(n.data.nr);
  }

  // ----- paths -----

  /** The argument is read from a path register; it is anchored, unless it is a name, at the directory
      descriptor in the register in front of it if there is one. */
  predicate ArgBySignature(nr: nat, a: F.PathArg) {
    && CarriesPath(nr, a.pathArg) && (a.anchor <==> Carries(nr, a.pathArg, Path))
    && (a.dirfdArg.Some? <==> a.anchor && a.pathArg > 0 && Carries(nr, a.pathArg - 1, Dirfd))
    && (a.dirfdArg.Some? ==> a.dirfdArg.value + 1 == a.pathArg)
  }

  ghost predicate ArgsBySignature(nr: nat, args: seq<F.PathArg>) {
    && (forall j :: 0 <= j < |args| ==> ArgBySignature(nr, args[j]))
    && (|args| == 2 ==> args[0].pathArg < args[1].pathArg)
    && (forall i :: CarriesPath(nr, i) ==> exists j :: 0 <= j < |args| && args[j].pathArg == i)
  }

  /** The path arguments read are the path registers of the signature, each once and in order. */
  lemma PathsBySignature(n: Notification)
    requires FamilyOf(n).FileSystem? || FamilyOf(n).Execution?
    ensures ArgsBySignature(n.data.nr, PathArgs(n))
  {
    hide ArgsBySignature, F.ShapeOf, Signature;
    if FamilyOf(n).Execution? {
      ExecBySignature(n.data.nr);
    } else {
      ShapeBySignature(n.data.nr);
    }
  }

  lemma ExecBySignature(nr: nat)
    requires IsExec(nr)
    ensures ArgsBySignature(nr, [if nr == EXECVE then F.Cwd(0) else F.At(0, 1)])
  {
    OnePath(nr, if nr == EXECVE then F.Cwd(0) else F.At(0, 1));
  }

  function ShapeArgs(shape: F.FsShape): seq<F.PathArg> {
    [shape.path] + (match shape.dest case Some(dest) => [dest] case None => [])
  }

  lemma ShapeBySignature(nr: nat)
    requires F.ShapeOf(nr).Some?
    ensures ArgsBySignature(nr, ShapeArgs(F.ShapeOf(nr).value))
  {
    hide ArgsBySignature, ArgBySignature, CarriesPath, F.ShapeOf;
    var shape := F.ShapeOf(nr).value;
    if shape.dest.None? {
      OnePathShape(nr);
      OnePath(nr, shape.path);
      assert ShapeArgs(shape) == [shape.path];
    } else {
      TwoPathShape(nr);
      TwoPaths(nr, shape.path, shape.dest.value);
    }
  }

  lemma OnePathShape(nr: nat)
    requires F.ShapeOf(nr).Some? && F.ShapeOf(nr).value.dest.None?
    ensures var path := F.ShapeOf(nr).value.path;
            ArgBySignature(nr, path) && forall i :: CarriesPath(nr, i) ==> i == path.pathArg
  {}

  lemma TwoPathShape(nr: nat)
    requires F.ShapeOf(nr).Some? && F.ShapeOf(nr).value.dest.Some?
    ensures var path, dest := F.ShapeOf(nr).value.path, F.ShapeOf(nr).value.dest.value;
            && ArgBySignature(nr, path) && ArgBySignature(nr, dest) && path.pathArg < dest.pathArg
            && forall i :: CarriesPath(nr, i) ==> i == path.pathArg || i == dest.pathArg
  {}

  lemma OnePath(nr: nat, a: F.PathArg)
    requires ArgBySignature(nr, a) && forall i :: CarriesPath(nr, i) ==> i == a.pathArg
    ensures ArgsBySignature(nr, [a])
  {
    hide Signature, CarriesPath, ArgBySignature;
    assert [a][0] == a;
  }

  lemma TwoPaths(nr: nat, a: F.PathArg, b: F.PathArg)
    requires ArgBySignature(nr, a) && ArgBySignature(nr, b) && a.pathArg < b.pathArg
    requires forall i :: CarriesPath(nr, i) ==> i == a.pathArg || i == b.pathArg
    ensures ArgsBySignature(nr, [a, b]) && [a] + [b] == [a, b]
  {
    hide Signature, CarriesPath, ArgBySignature;
    assert [a, b][0] == a && [a, b][1] == b;
  }

  /** A relative path starts at the caller's working directory, or at the descriptor in the register
      in front of it unless that says the working directory. */
  lemma AnchorBySignature(n: Notification, a: F.PathArg)
    requires a.Valid() && ArgBySignature(n.data.nr, a)
    ensures AnchorOf(n, a) ==
            if a.anchor && a.pathArg > 0 && Carries(n.data.nr, a.pathArg - 1, Dirfd)
               && n.data.args[a.pathArg - 1] % 0x1_0000_0000 != 0xffff_ff9c
            then FdAnchor(n.data.args[a.pathArg - 1] % 0x1_0000_0000) else CwdAnchor
  {}

  /** A relative path joined to an absolute prefix is what lies behind it. */
  lemma JoinedIsBehind(prefix: string, path: string)
    requires Text.Absolute(prefix) && !Text.Absolute(path)
    ensures Text.Absolute(Joined(prefix, path))
    ensures Text.Components(Joined(prefix, path)) == Text.Components(prefix) + Text.Named(Text.Split(path))
  {
    hide Text.Split, Text.Named;
    if prefix[|prefix| - 1] == '/' {
      var front := prefix[..|prefix| - 1];
      assert prefix == front + "/" + "";
      assert prefix + path == front + "/" + path;
      Text.SplitAppend(front, "");
      Text.SplitAppend(front, path);
      Text.NamedAppend(Text.Split(front), Text.Split(""));
      Text.NamedAppend(Text.Split(front), Text.Split(path));
      NothingNamed();
    } else {
      Text.SplitAppend(prefix, path);
      Text.NamedAppend(Text.Split(prefix), Text.Split(path));
    }
  }

  lemma NothingNamed()
    ensures Text.Named(Text.Split("")) == []
  {}

  // ----- what a filesystem call asks for -----

  function Low32(x: nat): nat {
    x % 0x1_0000_0000
  }

  /** `value` is the low word of the register that carries `p`, or `otherwise` if none does. */
  predicate FromRegister(nr: nat, args: seq<nat>, p: Param, value: nat, otherwise: nat)
    requires |args| == 6
  {
    if exists i :: 0 <= i < 6 && Carries(nr, i, p)
    then forall i :: 0 <= i < 6 && Carries(nr, i, p) ==> value == Low32(args[i])
    else value == otherwise
  }

  lemma Registers(nr: nat)
    ensures nr == RENAMEAT2 || nr == LINKAT || nr == FCHOWNAT ==> Only(nr, 4, Flags)
    ensures nr == UNLINKAT ==> Only(nr, 2, Flags)
    ensures nr == RENAME || nr == RENAMEAT || nr == LINK || nr == UNLINK || nr == RMDIR || nr == CHOWN ==>
              Lacks(nr, Flags)
    ensures nr == MKDIR || nr == CHMOD ==> Only(nr, 1, Mode)
    ensures nr == MKDIRAT || nr == FCHMODAT ==> Only(nr, 2, Mode)
    ensures nr == CHOWN ==> Only(nr, 1, Uid) && Only(nr, 2, Gid)
    ensures nr == FCHOWNAT ==> Only(nr, 2, Uid) && Only(nr, 3, Gid)
  {}

  predicate Only(nr: nat, i: nat, p: Param) {
    Carries(nr, i, p) && forall k :: 0 <= k < 6 && Carries(nr, k, p) ==> k == i
  }

  predicate Lacks(nr: nat, p: Param) {
    forall k :: 0 <= k < 6 ==> !Carries(nr, k, p)
  }

  /** The mutation a call names, parameter by parameter. */
  lemma MutationBySignature(nr: nat, args: seq<nat>, path: string)
    requires |args| == 6 && MutationOf(nr, args, path).Some?
    ensures match MutationOf(nr, args, path).value
            case Truncate(length) =>
              nr == TRUNCATE && Carries(nr, 1, Length)
              && (args[1] < 0x1_0000_0000_0000_0000 ==>
                    && -0x8000_0000_0000_0000 <= length < 0x8000_0000_0000_0000
                    && (length == args[1] || length + 0x1_0000_0000_0000_0000 == args[1]))
            case Rename(flags) =>
              (nr == RENAME || nr == RENAMEAT || nr == RENAMEAT2) && FromRegister(nr, args, Flags, flags, 0)
            case Link(flags) => (nr == LINK || nr == LINKAT) && FromRegister(nr, args, Flags, flags, 0)
            case Unlink(flags) =>
              && (nr == UNLINK || nr == UNLINKAT || nr == RMDIR)
              && FromRegister(nr, args, Flags, flags, if nr == RMDIR then AT_REMOVEDIR else 0)
            case Mkdir(mode) => (nr == MKDIR || nr == MKDIRAT) && FromRegister(nr, args, Mode, mode, 0)
            case Chmod(mode) => (nr == CHMOD || nr == FCHMODAT) && FromRegister(nr, args, Mode, mode, 0)
            case Chown(uid, gid, flags) =>
              && (nr == CHOWN || nr == FCHOWNAT) && FromRegister(nr, args, Uid, uid, 0)
              && FromRegister(nr, args, Gid, gid, 0) && FromRegister(nr, args, Flags, flags, 0)
            case Symlink(target) => (nr == SYMLINK || nr == SYMLINKAT) && target == path
  {
    hide Signature;
    Registers(nr);
    TruncateRegister();
  }

  lemma TruncateRegister()
    ensures Carries(TRUNCATE, 1, Length)
  {}

  /** Which mutation a number names. */
  lemma MutationByName(nr: nat, args: seq<nat>, path: string)
    requires |args| == 6 && IsFileCall(nr) && nr != OPEN && nr != OPENAT && nr != OPENAT2 && nr != CREAT
    ensures MutationOf(nr, args, path).Some?
  {}

  /** Flags and mode of an open, from their registers; the flags keep their whole word. */
  lemma OpenBySignature(n: Notification, k: Known)
    requires FamilyOf(n).FileSystem? && Invocation(n, k).Some? && Invocation(n, k).value.1.Open?
    ensures var (access, inv) := Invocation(n, k).value;
            && (n.data.nr == OPEN || n.data.nr == OPENAT || n.data.nr == OPENAT2)
            && access == F.OpenAccess(inv.flags)
            && (n.data.nr == OPEN ==> Carries(OPEN, 1, Flags) && Carries(OPEN, 2, Mode)
                                      && inv == Open(n.data.args[1], Low32(n.data.args[2]), None))
            && (n.data.nr == OPENAT ==> Carries(OPENAT, 2, Flags) && Carries(OPENAT, 3, Mode)
                                        && inv == Open(n.data.args[2], Low32(n.data.args[3]), None))
  {
    hide OpenOfHow, F.OpenAccess, MutationOf;
  }

  /** When the last component of an operand is followed, and when it may be missing: opens follow but
      for bit 17 and may create with bit 6; truncate and chmod follow, chown does without flags, link
      does with bit 10, and nothing else; a second operand is never followed. */
  lemma FollowRules(inv: FsInvocation)
    ensures var (follow, _, second, _) := PrepareModes(inv);
            && !second
            && match inv
               case Open(flags, _, _) => follow <==> !Bits.Bit(flags, 17)
               case Mutate(Truncate(_)) => follow
               case Mutate(Chmod(_)) => follow
               case Mutate(Chown(_, _, flags)) => follow <==> flags == 0
               case Mutate(Link(flags)) => follow <==> Bits.Bit(flags, 10)
               case Mutate(_) => !follow
  {
    FollowBits();
    if inv.Open? {
      Bits.AndSingleBit(inv.flags, 17);
    } else if inv.mutation.Link? {
      Bits.AndSingleBit(inv.mutation.flags, 10);
    }
  }

  lemma FollowBits()
    ensures Bits.Pow2(17) == O_NOFOLLOW && Bits.Pow2(10) == AT_SYMLINK_FOLLOW && Bits.Pow2(19) == O_CLOEXEC
    ensures Bits.Pow2(1) == RENAME_EXCHANGE && Bits.Pow2(9) == AT_REMOVEDIR
  {
    Bits.Pow2Words();
    assert Bits.Pow2(17) == 2 * Bits.Pow2(16);
    assert Bits.Pow2(19) == 4 * Bits.Pow2(17);
    assert Bits.Pow2(9) == 512 by {
      assert Bits.Pow2(4) == 16;
    }
  }

  // ----- what the other calls pass -----

  /** A network call's destination and payload, and a cross-process call's target, by register. */
  lemma NetworkBySignature(n: Notification)
    requires IsNetworkCall(n.data.nr)
    ensures Carries(n.data.nr, AddrArg(n), Address) && Carries(n.data.nr, LenArg(n), AddressLength)
    ensures n.data.nr == SENDTO ==> Carries(SENDTO, 1, Buffer) && Carries(SENDTO, 2, Count) && Carries(SENDTO, 3, Flags)
  {}

  lemma TargetBySignature(n: Notification, i: nat)
    requires IsCrossCall(n.data.nr) && Carries(n.data.nr, i, Pid)
    ensures i < 6 && TargetPid(n) == Low32(n.data.args[i])
  {}

  lemma PidRegister(nr: nat)
    requires IsCrossCall(nr)
    ensures Carries(nr, if nr == PTRACE then 1 else 0, Pid)
  {}

  /** The accesses a call is recorded with, by name. */
  lemma AccessesByName(nr: nat)
    requires IsFileCall(nr) && nr != OPEN && nr != OPENAT && nr != OPENAT2
    ensures F.ShapeOf(nr).Some? && F.ShapeOf(nr).value.access ==
            F.Fixed(if nr == MKDIR || nr == MKDIRAT || nr == LINK || nr == LINKAT || nr == SYMLINK || nr == SYMLINKAT
                    then [Create]
                    else if nr == RMDIR || nr == UNLINK || nr == UNLINKAT then [Delete]
                    else if nr == CREAT then [Write, Create]
                    else [Write])
  {}

  // ----- the structure of openat2 -----

  /** A word as `count` octets, the lowest first. */
  function Octets(x: nat, count: nat): (octets: seq<Octet>)
    ensures |octets| == count
  {
    if count == 0 then [] else [x % 256] + Octets(x / 256, count - 1)
  }

  function Power(count: nat): nat {
    if count == 0 then 1 else 256 * Power(count - 1)
  }

  lemma {:induction false} OctetsGiveBack(x: nat, count: nat)
    requires x < Power(count)
    ensures LittleEndian(Octets(x, count)) == x
  {
    if count > 0 {
      OctetsGiveBack(x / 256, count - 1);
      assert Octets(x, count)[1..] == Octets(x / 256, count - 1);
    }
  }

  /** An `open_how` laid out as three words and an extension is read back: flags as they are, the mode
      held to 32 bits; a declared size beyond the cap or an extension that is not all zero is too big
      (7), and any resolve flag is unsupported (95). */
  lemma HowIsReadBack(size: nat, flags: nat, mode: nat, resolve: nat, extension: seq<Octet>)
    requires flags < Power(8) && mode < Power(8) && resolve < Power(8)
    ensures OpenOfHow(size, Octets(flags, 8) + Octets(mode, 8) + Octets(resolve, 8) + extension) ==
            Open(flags, if mode < 0x1_0000_0000 then mode else 0xffff_ffff,
                 if size > 65535 || (exists j :: 0 <= j < |extension| && extension[j] != 0) then Some(7)
                 else if resolve != 0 then Some(95)
                 else None)
  {
    hide Octets, Power, LittleEndian;
    var bytes := Octets(flags, 8) + Octets(mode, 8) + Octets(resolve, 8) + extension;
    assert bytes[..8] == Octets(flags, 8) && bytes[8..16] == Octets(mode, 8) && bytes[16..24] == Octets(resolve, 8);
    OctetsGiveBack(flags, 8);
    OctetsGiveBack(mode, 8);
    OctetsGiveBack(resolve, 8);
    assert forall j :: 0 <= j < |extension| ==> bytes[24 + j] == extension[j];
    assert forall k :: 24 <= k < |bytes| ==> bytes[k] == extension[k - 24];
  }
}
