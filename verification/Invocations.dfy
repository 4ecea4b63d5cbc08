/** What a trapped filesystem call asks the broker to do, and which accesses that takes. */
module Invocations {
  import opened Wrappers
  import opened Vocabulary
  import opened Syscalls
  import Facts

  const O_NOFOLLOW: nat := 0x2_0000
  const O_CLOEXEC: nat := 0x8_0000
  const AT_REMOVEDIR: nat := 0x200
  const AT_SYMLINK_FOLLOW: nat := 0x400
  const RENAME_EXCHANGE: nat := 2
  const E2BIG: nat := 7
  const EOPNOTSUPP: nat := 95
  const U32_MAX: nat := 0xffff_ffff

  const OPEN_HOW_SIZE: nat := 24
  const ABSOLUTE_READ_CAP: nat := 65535

  type Octet = n: nat | n < 256

  /** Flag words of type i32 are kept as their 32-bit pattern. */
  datatype Mutation =
    | Truncate(length: int)
    | Rename(flags: nat)
    | Mkdir(mode: nat)
    | Unlink(flags: nat)
    | Link(flags: nat)
    | Symlink(target: string)
    | Chmod(mode: nat)
    | Chown(uid: nat, gid: nat, flags: nat)

  datatype FsInvocation =
    | Open(flags: nat, mode: nat, unsupported: Option<nat>)
    | Mutate(mutation: Mutation)

  function Word32(x: nat): nat {
    x % 0x1_0000_0000
  }

  /** A cast of a u64 to i64. */
  function Signed64(x: nat): int {
    if x < 0x8000_0000_0000_0000 then x else x - 0x1_0000_0000_0000_0000
  }

  function LittleEndian(bytes: seq<Octet>): nat {
    if bytes == [] then 0 else bytes[0] + 256 * LittleEndian(bytes[1..])
  }

  function OpenMode(nr: nat, args: seq<nat>): nat
    requires |args| == 6
  {
    if nr == OPEN then Word32(args[2])
    else if nr == CREAT then Word32(args[1])
    else if nr == OPENAT then Word32(args[3])
    else 0
  }

  /** The mutation a number and its arguments name; `creat` names none. */
  function MutationOf(nr: nat, args: seq<nat>, path: string): Option<Mutation>
    requires |args| == 6
  {
    if nr == TRUNCATE then Some(Truncate(Signed64(args[1])))
    else if nr == RENAME || nr == RENAMEAT then Some(Rename(0))
    else if nr == RENAMEAT2 then Some(Rename(Word32(args[4])))
    else if nr == MKDIR then Some(Mkdir(Word32(args[1])))
    else if nr == MKDIRAT then Some(Mkdir(Word32(args[2])))
    else if nr == RMDIR then Some(Unlink(AT_REMOVEDIR))
    else if nr == UNLINK then Some(Unlink(0))
    else if nr == UNLINKAT then Some(Unlink(Word32(args[2])))
    else if nr == LINK then Some(Link(0))
    else if nr == LINKAT then Some(Link(Word32(args[4])))
    else if nr == SYMLINK || nr == SYMLINKAT then Some(Symlink(path))
    else if nr == CHMOD then Some(Chmod(Word32(args[1])))
    else if nr == FCHMODAT then Some(Chmod(Word32(args[2])))
    else if nr == CHOWN then Some(Chown(Word32(args[1]), Word32(args[2]), 0))
    else if nr == FCHOWNAT then Some(Chown(Word32(args[2]), Word32(args[3]), Word32(args[4])))
    else None
  }

  /** How many bytes of an `open_how` of the given size are read. */
  function HowReadSize(mode: Mode, size: nat): nat {
    if mode == Enforce then (if size < ABSOLUTE_READ_CAP then size else ABSOLUTE_READ_CAP) else OPEN_HOW_SIZE
  }

  /** An `open_how` of declared size `size`: flags, mode and resolve words, then an extension
      that must be zero. */
  function OpenOfHow(size: nat, bytes: seq<Octet>): FsInvocation
    requires |bytes| >= OPEN_HOW_SIZE
  {
    var flags, mode, resolve := LittleEndian(bytes[..8]), LittleEndian(bytes[8..16]), LittleEndian(bytes[16..24]);
    Open(flags, if mode <= U32_MAX then mode else U32_MAX,
         if size > ABSOLUTE_READ_CAP || exists k :: OPEN_HOW_SIZE <= k < |bytes| && bytes[k] != 0 then Some(E2BIG)
         else if resolve != 0 then Some(EOPNOTSUPP)
         else None)
  }

  /** The flags `(primary follow, primary may be missing, secondary follow, secondary may be missing)`. */
  function PrepareModes(inv: FsInvocation): (bool, bool, bool, bool) {
    match inv
    case Open(flags, _, _) => (!Facts.Has(flags, O_NOFOLLOW), Facts.Has(flags, Facts.O_CREAT), false, false)
    case Mutate(m) =>
      match m
      case Truncate(_) | Chmod(_) => (true, false, false, false)
      case Chown(_, _, flags) => (flags == 0, false, false, false)
      case Rename(_) => (false, false, false, true)
      case Mkdir(_) => (false, true, false, false)
      case Unlink(_) => (false, false, false, false)
      case Link(flags) => (Facts.Has(flags, AT_SYMLINK_FOLLOW), false, false, true)
      case Symlink(_) => (false, true, false, false)
  }

  function PrimaryAccess(inv: FsInvocation, openAccess: seq<FsAccess>): seq<FsAccess> {
    match inv
    case Open(_, _, _) => openAccess
    case Mutate(m) =>
      match m
      case Rename(flags) => if Facts.Has(flags, RENAME_EXCHANGE) then [Delete, Create] else [Delete]
      case Link(_) => [Read]
      case Mkdir(_) | Symlink(_) => [Create]
      case Unlink(_) => [Delete]
      case Truncate(_) | Chmod(_) | Chown(_, _, _) => [Write]
  }

  function SecondaryAccess(inv: FsInvocation, destinationExists: bool): seq<FsAccess> {
    match inv
    case Mutate(Rename(flags)) =>
      if Facts.Has(flags, RENAME_EXCHANGE) then [Delete, Create]
      else if destinationExists then [Create, Delete]
      else [Create]
    case Mutate(Link(_)) => [Create]
    case _ => []
  }

  predicate IsSymlink(inv: FsInvocation) {
    inv.Mutate? && inv.mutation.Symlink?
  }

  /** A mutation works on two prepared operands exactly when it is a rename or a link. */
  predicate TwoOperands(inv: FsInvocation) {
    inv.Mutate? && (inv.mutation.Rename? || inv.mutation.Link?)
  }

  // ----- the tables agree -----

  /** The path arguments a call passes are the operands its mutation works on; a symlink's
      target is stored text and its link is the only operand. */
  lemma OperandsMatchArguments(nr: nat, args: seq<nat>, path: string)
    requires |args| == 6 && Facts.ShapeOf(nr).Some? && MutationOf(nr, args, path).Some?
    ensures var shape, m := Facts.ShapeOf(nr).value, MutationOf(nr, args, path).value;
            && shape.access.Fixed?
            && (shape.dest.Some? <==> TwoOperands(Mutate(m)) || m.Symlink?)
            && (m.Symlink? ==> !shape.path.anchor)
  {}

  /** What decides a call: each access is demanded of each operand that must carry it. Removing
      or replacing an entry takes Delete, bringing one into being takes Create, linking reads
      the source, and one-operand calls demand just the access they record. */
  lemma DemandsOfEachCall(nr: nat, args: seq<nat>, path: string, exists2: bool)
    requires |args| == 6 && Facts.ShapeOf(nr).Some? && MutationOf(nr, args, path).Some?
    ensures var recorded := Facts.ShapeOf(nr).value.access.list;
            var inv := Mutate(MutationOf(nr, args, path).value);
            var first, second := PrimaryAccess(inv, recorded), SecondaryAccess(inv, exists2);
            var exchange := nr == RENAMEAT2 && Facts.Has(Word32(args[4]), RENAME_EXCHANGE);
            && first != [] && (second != [] <==> TwoOperands(inv))
            && (nr in {RENAME, RENAMEAT, RENAMEAT2} ==>
                  && Delete in first && (Create in first <==> exchange)
                  && Create in second && (Delete in second <==> exists2 || exchange))
            && (nr in {LINK, LINKAT} ==> first == [Read] && second == [Create])
            && (nr !in {RENAME, RENAMEAT, RENAMEAT2, LINK, LINKAT} ==> first == recorded)
  {}

  /** An operand may be missing exactly when the call brings it into being: an open that creates, a
      mkdir, a symlink, and the destination of a rename or link. What may be missing is demanded
      Create, so nothing comes into being undecided. */
  lemma MissingOnlyWhereCreated(inv: FsInvocation, existed: bool)
    ensures var (_, missing, _, secondMissing) := PrepareModes(inv);
            var access := if inv.Open? then Facts.OpenAccess(inv.flags) else [];
            && (missing <==> Create in PrimaryAccess(inv, access) && !TwoOperands(inv))
            && (secondMissing <==> Create in SecondaryAccess(inv, existed))
  {
    if inv.Open? {
      Facts.OpenAccessMeaning(inv.flags);
      Facts.CreateFlag(inv.flags);
    }
  }

  /** The arguments of an at-form: the directory first, then those of the plain form. */
  function Shifted(dirfd: nat, args: seq<nat>): (r: seq<nat>)
    requires |args| == 6
    ensures |r| == 6
  {
    [dirfd] + args[..5]
  }

  /** The same with a directory before each of two paths. */
  function ShiftedTwice(dirfd: nat, dirfd2: nat, args: seq<nat>, flags: nat): (r: seq<nat>)
    requires |args| == 6
    ensures |r| == 6
  {
    [dirfd, args[0], dirfd2, args[1], flags, args[5]]
  }

  /** Each at-form asks for what its plain form asks for, read one register later: the tables for
      the two generations of calls agree. */
  lemma AtFormsAgree(dirfd: nat, dirfd2: nat, args: seq<nat>, path: string)
    requires |args| == 6
    ensures MutationOf(MKDIRAT, Shifted(dirfd, args), path) == MutationOf(MKDIR, args, path)
    ensures MutationOf(FCHMODAT, Shifted(dirfd, args), path) == MutationOf(CHMOD, args, path)
    ensures args[3] == 0 ==> MutationOf(FCHOWNAT, Shifted(dirfd, args), path) == MutationOf(CHOWN, args, path)
    ensures args[1] == 0 ==> MutationOf(UNLINKAT, Shifted(dirfd, args), path) == MutationOf(UNLINK, args, path)
    ensures args[1] == AT_REMOVEDIR ==>
              MutationOf(UNLINKAT, Shifted(dirfd, args), path) == MutationOf(RMDIR, args, path)
    ensures MutationOf(SYMLINKAT, args, path) == MutationOf(SYMLINK, args, path)
    ensures MutationOf(RENAMEAT2, ShiftedTwice(dirfd, dirfd2, args, 0), path) == MutationOf(RENAME, args, path)
    ensures MutationOf(RENAMEAT, args, path) == MutationOf(RENAME, args, path)
    ensures MutationOf(LINKAT, ShiftedTwice(dirfd, dirfd2, args, 0), path) == MutationOf(LINK, args, path)
    ensures OpenMode(OPENAT, Shifted(dirfd, args)) == OpenMode(OPEN, args)
  {}

  /** And their path and flag arguments sit where those registers say. */
  lemma AtFormsReadTheSamePaths(dirfd: nat, dirfd2: nat, args: seq<nat>, one: nat, two: nat)
    requires |args| == 6
    requires (one, two) in {(OPEN, OPENAT), (MKDIR, MKDIRAT), (CHMOD, FCHMODAT), (CHOWN, FCHOWNAT),
                            (UNLINK, UNLINKAT), (RMDIR, UNLINKAT), (RENAME, RENAMEAT), (RENAME, RENAMEAT2),
                            (LINK, LINKAT)}
    ensures Facts.ShapeOf(one).Some? && Facts.ShapeOf(two).Some?
    ensures var plain, at := Facts.ShapeOf(one).value, Facts.ShapeOf(two).value;
            && plain.path.dirfdArg.None? && plain.path.anchor == at.path.anchor && at.path.dirfdArg == Some(0)
            && (plain.dest.Some? <==> at.dest.Some?)
            && (plain.access == at.access || one == OPEN)
            && if plain.dest.None? then
                 && Shifted(dirfd, args)[at.path.pathArg] == args[plain.path.pathArg]
                 && (one == OPEN ==> Shifted(dirfd, args)[at.access.arg] == args[plain.access.arg])
               else
                 var shifted := ShiftedTwice(dirfd, dirfd2, args, 0);
                 && shifted[at.path.pathArg] == args[plain.path.pathArg]
                 && shifted[at.dest.value.pathArg] == args[plain.dest.value.pathArg]
                 && at.dest.value.dirfdArg.Some? && shifted[at.dest.value.dirfdArg.value] == dirfd2
  {}
}
