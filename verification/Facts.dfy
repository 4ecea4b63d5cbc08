/** The syscall-to-fact table of the filesystem families: where the path pointers of a trapped
    call live and which access it requests. */
module Facts {
  import opened Wrappers
  import opened Vocabulary
  import opened Syscalls
  import Bits

  const O_ACCMODE: nat := 3
  const O_WRONLY: nat := 1
  const O_RDWR: nat := 2
  const O_CREAT: nat := 64
  const O_TRUNC: nat := 512

  /** The 32-bit dirfd that means the caller's working directory. */
  const AT_FDCWD: nat := 0xffff_ff9c

  datatype PathArg = PathArg(pathArg: nat, dirfdArg: Option<nat>, anchor: bool) {
    predicate Valid() {
      pathArg < 6 && (dirfdArg.Some? ==> dirfdArg.value < 6)
    }
  }

  function At(dirfdArg: nat, pathArg: nat): PathArg {
    PathArg(pathArg, Some(dirfdArg), true)
  }

  function Cwd(pathArg: nat): PathArg {
    PathArg(pathArg, None, true)
  }

  function Verbatim(pathArg: nat): PathArg {
    PathArg(pathArg, None, false)
  }

  datatype AccessSpec =
    | Fixed(list: seq<FsAccess>)
    | OpenFlags(arg: nat)
    | OpenHow(arg: nat)

  datatype FsShape = FsShape(name: string, path: PathArg, dest: Option<PathArg>, access: AccessSpec)

  /** The shape of a filesystem-family call. */
  function ShapeOf(nr: nat): (shape: Option<FsShape>)
    ensures shape.Some? ==> shape.value.path.Valid() && (shape.value.dest.Some? ==> shape.value.dest.value.Valid())
    ensures shape.Some? && shape.value.access.Fixed? ==> shape.value.access.list != []
    ensures shape.Some? && !shape.value.access.Fixed? ==> shape.value.access.arg < 6 && shape.value.dest.None?
  {
    if nr == OPEN then Some(FsShape("open", Cwd(0), None, OpenFlags(1)))
    else if nr == CREAT then Some(FsShape("creat", Cwd(0), None, Fixed([Write, Create])))
    else if nr == OPENAT then Some(FsShape("openat", At(0, 1), None, OpenFlags(2)))
    else if nr == OPENAT2 then Some(FsShape("openat2", At(0, 1), None, OpenHow(2)))
    else if nr == TRUNCATE then Some(FsShape("truncate", Cwd(0), None, Fixed([Write])))
    else if nr == RENAME then Some(FsShape("rename", Cwd(0), Some(Cwd(1)), Fixed([Write])))
    else if nr == RENAMEAT then Some(FsShape("renameat", At(0, 1), Some(At(2, 3)), Fixed([Write])))
    else if nr == RENAMEAT2 then Some(FsShape("renameat2", At(0, 1), Some(At(2, 3)), Fixed([Write])))
    else if nr == MKDIR then Some(FsShape("mkdir", Cwd(0), None, Fixed([Create])))
    else if nr == MKDIRAT then Some(FsShape("mkdirat", At(0, 1), None, Fixed([Create])))
    else if nr == RMDIR then Some(FsShape("rmdir", Cwd(0), None, Fixed([Delete])))
    else if nr == UNLINK then Some(FsShape("unlink", Cwd(0), None, Fixed([Delete])))
    else if nr == UNLINKAT then Some(FsShape("unlinkat", At(0, 1), None, Fixed([Delete])))
    else if nr == LINK then Some(FsShape("link", Cwd(0), Some(Cwd(1)), Fixed([Create])))
    else if nr == LINKAT then Some(FsShape("linkat", At(0, 1), Some(At(2, 3)), Fixed([Create])))
    else if nr == SYMLINK then Some(FsShape("symlink", Verbatim(0), Some(Cwd(1)), Fixed([Create])))
    else if nr == SYMLINKAT then Some(FsShape("symlinkat", Verbatim(0), Some(At(1, 2)), Fixed([Create])))
    else if nr == CHMOD then Some(FsShape("chmod", Cwd(0), None, Fixed([Write])))
    else if nr == FCHMODAT then Some(FsShape("fchmodat", At(0, 1), None, Fixed([Write])))
    else if nr == CHOWN then Some(FsShape("chown", Cwd(0), None, Fixed([Write])))
    else if nr == FCHOWNAT then Some(FsShape("fchownat", At(0, 1), None, Fixed([Write])))
    else None
  }

  /** The envelope name of any tabled call; `unknown` otherwise. */
  function Name(nr: nat): string {
    if ShapeOf(nr).Some? then ShapeOf(nr).value.name
    else if nr == CLONE then "clone"
    else if nr == FORK then "fork"
    else if nr == VFORK then "vfork"
    else if nr == EXECVE then "execve"
    else if nr == EXECVEAT then "execveat"
    else if nr == CLONE3 then "clone3"
    else if nr == PTRACE then "ptrace"
    else if nr == PROCESS_VM_READV then "process_vm_readv"
    else if nr == PROCESS_VM_WRITEV then "process_vm_writev"
    else if nr == PIDFD_GETFD then "pidfd_getfd"
    else if nr == CONNECT then "connect"
    else if nr == SENDTO then "sendto"
    else if nr == BIND then "bind"
    else if nr == IO_URING_SETUP then "io_uring_setup"
    else if nr == IO_URING_ENTER then "io_uring_enter"
    else if nr == IO_URING_REGISTER then "io_uring_register"
    else "unknown"
  }

  // ----- open flags -----

  predicate Has(flags: nat, bit: nat) {
    Bits.And(flags, bit) != 0
  }

  /** The accesses open flags request, each at most once: reading unless write-only, writing
      when the mode or a truncation says so, creating when asked to. */
  function OpenAccess(flags: nat): seq<FsAccess> {
    var mode := Bits.And(flags, O_ACCMODE);
    (if mode == O_WRONLY then [] else [Read])
    + (if mode == O_WRONLY || mode == O_RDWR || Has(flags, O_TRUNC) then [Write] else [])
    + (if Has(flags, O_CREAT) then [Create] else [])
  }

  method OpenFlagsAccess(flags: nat) returns (access: seq<FsAccess>)
    ensures access == OpenAccess(flags)
  {
    var mode := Bits.And(flags, O_ACCMODE);
    if mode == O_WRONLY {
      access := [Write];
    } else if mode == O_RDWR {
      access := [Read, Write];
    } else {
      access := [Read];
    }
    if Has(flags, O_TRUNC) && Write !in access {
      access := access + [Write];
    }
    if Has(flags, O_CREAT) {
      access := access + [Create];
    }
  }

  lemma AndOne(b: nat)
    ensures Bits.And(b, 1) == b % 2
  {
    if b != 0 {
      assert Bits.And(b, 1) == (b % 2) * (1 % 2) + 2 * Bits.And(b / 2, 1 / 2);
      assert Bits.And(b / 2, 0) == 0;
    }
  }

  /** The access mode is the two lowest bits. */
  lemma AccModeIsLowBits(flags: nat)
    ensures Bits.And(flags, O_ACCMODE) == flags % 4
  {
    if flags != 0 {
      assert Bits.And(flags, 3) == (flags % 2) * (3 % 2) + 2 * Bits.And(flags / 2, 3 / 2);
      hide Bits.And;
      AndOne(flags / 2);
      assert flags % 4 == flags % 2 + 2 * ((flags / 2) % 2);
    }
  }

  lemma CreateFlag(flags: nat)
    ensures Create in OpenAccess(flags) <==> Has(flags, O_CREAT)
  {}

  /** What flags request, in the terms of open(2): bit 6 creates, bit 9 truncates. */
  lemma OpenAccessMeaning(flags: nat)
    ensures Read in OpenAccess(flags) <==> flags % 4 != 1
    ensures Write in OpenAccess(flags) <==> flags % 4 == 1 || flags % 4 == 2 || Bits.Bit(flags, 9)
    ensures Create in OpenAccess(flags) <==> Bits.Bit(flags, 6)
    ensures Delete !in OpenAccess(flags) && OpenAccess(flags) != []
  {
    AccModeIsLowBits(flags);
    assert Bits.Pow2(6) == O_CREAT && Bits.Pow2(9) == O_TRUNC by {
      assert Bits.Pow2(3) == 8;
      assert Bits.Pow2(6) == 64;
    }
    Bits.AndSingleBit(flags, 6);
    Bits.AndSingleBit(flags, 9);
  }
}
