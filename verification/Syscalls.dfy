/** The x86-64 syscall numbers of the tabled sets, and the two tables. */
module Syscalls {
  const OPEN: nat := 2
  const CREAT: nat := 85
  const OPENAT: nat := 257
  const OPENAT2: nat := 437
  const TRUNCATE: nat := 76
  const RENAME: nat := 82
  const MKDIR: nat := 83
  const RMDIR: nat := 84
  const LINK: nat := 86
  const UNLINK: nat := 87
  const SYMLINK: nat := 88
  const CHMOD: nat := 90
  const CHOWN: nat := 92
  const MKDIRAT: nat := 258
  const FCHOWNAT: nat := 260
  const UNLINKAT: nat := 263
  const RENAMEAT: nat := 264
  const LINKAT: nat := 265
  const SYMLINKAT: nat := 266
  const FCHMODAT: nat := 268
  const RENAMEAT2: nat := 316
  const CLONE: nat := 56
  const FORK: nat := 57
  const VFORK: nat := 58
  const EXECVE: nat := 59
  const EXECVEAT: nat := 322
  const CLONE3: nat := 435
  const PTRACE: nat := 101
  const PROCESS_VM_READV: nat := 310
  const PROCESS_VM_WRITEV: nat := 311
  const PIDFD_GETFD: nat := 438
  const CONNECT: nat := 42
  const SENDTO: nat := 44
  const BIND: nat := 49
  const IO_URING_SETUP: nat := 425
  const IO_URING_ENTER: nat := 426
  const IO_URING_REGISTER: nat := 427

  /** Trapped and decided by policy. */
  const MEDIATED: seq<nat> := [
    OPEN, CREAT, OPENAT, OPENAT2,
    TRUNCATE, RENAME, MKDIR, RMDIR, LINK, UNLINK, SYMLINK, CHMOD, CHOWN, MKDIRAT, FCHOWNAT, UNLINKAT,
    RENAMEAT, LINKAT, SYMLINKAT, FCHMODAT, RENAMEAT2,
    CLONE, FORK, VFORK, EXECVE, EXECVEAT, CLONE3,
    PTRACE, PROCESS_VM_READV, PROCESS_VM_WRITEV,
    CONNECT, SENDTO, BIND]

  /** Trapped, recorded and refused in every mode. */
  const DENIED_RECORDED: seq<nat> := [PIDFD_GETFD, IO_URING_SETUP, IO_URING_ENTER, IO_URING_REGISTER]

  const AUDIT_ARCH_X86_64: nat := 0xc000_003e

  /** Bit 30 of a syscall number marks an x32 entry. */
  const X32_SYSCALL_BIT: nat := 0x4000_0000
}
