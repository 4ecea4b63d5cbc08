/** The seccomp program: its builder, the strict interpreter of its instruction subset, and the
    proof that the one does under the other what the tables say. */
module Filter {
  import opened Wrappers
  import opened Syscalls
  import Bits

  datatype Code = LdAbs | JeqK | JsetK | RetK

  /** One instruction; the jump fields are u8 in the kernel's layout. */
  datatype Insn = Insn(code: Code, jt: nat, jf: nat, k: nat)

  const DATA_NR: nat := 0
  const DATA_ARCH: nat := 4
  const DATA_ARGS: nat := 16
  const SENDTO_DEST_LO: nat := 48
  const SENDTO_DEST_HI: nat := 52

  const RET_ALLOW: nat := 0x7fff_0000
  const RET_USER_NOTIF: nat := 0x7fc0_0000

  /** What the kernel presents: a 32-bit number and architecture, six 64-bit arguments. */
  datatype Data = Data(nr: nat, arch: nat, args: seq<nat>)

  ghost predicate ValidData(d: Data) {
    && d.nr < 0x1_0000_0000 && d.arch < 0x1_0000_0000 && |d.args| == 6
    && forall i :: 0 <= i < 6 ==> d.args[i] < 0x1_0000_0000_0000_0000
  }

  // ----- the builder -----

  /** A cast to u8. */
  function U8(n: nat): nat {
    n % 256
  }

  /** The tables the builder is meant for: small enough for the jump fields, one SENDTO. */
  ghost predicate Buildable(table: seq<nat>) {
    && |table| + 7 <= 255
    && exists s :: OnlySendTo(table, s)
  }

  ghost predicate OnlySendTo(table: seq<nat>, s: int) {
    0 <= s < |table| && table[s] == SENDTO && forall i :: 0 <= i < |table| && i != s ==> table[i] != SENDTO
  }

  /** Where the code of entry `i` starts when SENDTO is entry `s`: four instructions of
      preamble, one per entry, four more behind the SENDTO entry. */
  function PcOf(s: nat, i: nat): nat {
    4 + i + (if i > s then 4 else 0)
  }

  /** The two 32-bit tests of the destination pointer. */
  function SendToCode(pc: nat, notifPc: nat, allowPc: nat): (code: seq<Insn>)
    requires pc + 5 <= allowPc < notifPc
    ensures |code| == 5
  {
    var lowPc, highPc := pc + 2, pc + 4;
    [ Insn(JeqK, 0, 4, SENDTO),
      Insn(LdAbs, 0, 0, SENDTO_DEST_LO),
      Insn(JeqK, 0, U8(notifPc - lowPc - 1), 0),
      Insn(LdAbs, 0, 0, SENDTO_DEST_HI),
      Insn(JeqK, U8(allowPc - highPc - 1), U8(notifPc - highPc - 1), 0) ]
  }

  /** The code of the entries below `n` is in place, every jump aimed at the shared returns. */
  ghost predicate Entries(table: seq<nat>, s: nat, n: nat, prog: seq<Insn>)
    requires OnlySendTo(table, s) && n <= |table| && PcOf(s, n) <= |prog|
  {
    var len := |table| + 10;
    var notif, allow := len - 1, len - 2;
    && (forall i :: 0 <= i < n && i != s ==> prog[PcOf(s, i)] == Insn(JeqK, notif - PcOf(s, i) - 1, 0, table[i]))
    && (s < n ==>
          var pc := PcOf(s, s);
          && prog[pc] == Insn(JeqK, 0, 4, SENDTO)
          && prog[pc + 1] == Insn(LdAbs, 0, 0, SENDTO_DEST_LO)
          && prog[pc + 2] == Insn(JeqK, 0, notif - (pc + 2) - 1, 0)
          && prog[pc + 3] == Insn(LdAbs, 0, 0, SENDTO_DEST_HI)
          && prog[pc + 4] == Insn(JeqK, allow - (pc + 4) - 1, notif - (pc + 4) - 1, 0))
  }

  ghost predicate Preamble(table: seq<nat>, prog: seq<Insn>)
    requires |prog| >= 4
  {
    var notif := |table| + 9;
    && prog[0] == Insn(LdAbs, 0, 0, DATA_ARCH)
    && prog[1] == Insn(JeqK, 0, notif - 2, AUDIT_ARCH_X86_64)
    && prog[2] == Insn(LdAbs, 0, 0, DATA_NR)
    && prog[3] == Insn(JsetK, notif - 4, 0, X32_SYSCALL_BIT)
  }

  ghost predicate Emitted(table: seq<nat>, s: nat, prog: seq<Insn>) {
    && OnlySendTo(table, s)
    && |prog| == |table| + 10
    && Preamble(table, prog)
    && Entries(table, s, |table|, prog)
    && prog[|prog| - 2] == Insn(RetK, 0, 0, RET_ALLOW)
    && prog[|prog| - 1] == Insn(RetK, 0, 0, RET_USER_NOTIF)
  }

  /** On every call the program ends within its own length, and notifies exactly as the table says. */
  ghost predicate Decides(prog: seq<Insn>, table: seq<nat>) {
    forall d :: ValidData(d) ==>
      Exec(prog, d, 0, 0, |prog| + 1) == Ok(if Traps(table, d) then RET_USER_NOTIF else RET_ALLOW)
  }

  method BuildFilter(tabled: seq<nat>) returns (prog: seq<Insn>)
    requires Buildable(tabled)
    ensures |prog| == |tabled| + 10
    ensures forall pc :: 0 <= pc < |prog| ==> prog[pc].jt <= 255 && prog[pc].jf <= 255
    ensures Decides(prog, tabled)
  {
    ghost var s :| OnlySendTo(tabled, s);
    hide Exec, Traps, Entries, Preamble, OnlySendTo, Emitted;
    var len := 4 + |tabled| + 4 + 2;
    var allowPc := len - 2;
    var notifPc := len - 1;
    prog := [Insn(LdAbs, 0, 0, DATA_ARCH)];
    prog := prog + [Insn(JeqK, 0, U8(notifPc - 1 - 1), AUDIT_ARCH_X86_64)];
    prog := prog + [Insn(LdAbs, 0, 0, DATA_NR)];
    prog := prog + [Insn(JsetK, U8(notifPc - 3 - 1), 0, X32_SYSCALL_BIT)];
    PreambleStands(tabled, s, prog);
    for i := 0 to |tabled|
      invariant |prog| == PcOf(s, i)
      invariant Preamble(tabled, prog)
      invariant Entries(tabled, s, i, prog)
    {
      var nr := tabled[i];
      var pc := |prog|;
      if nr == SENDTO {
        SendToAdded(tabled, s, i, prog);
        prog := prog + SendToCode(pc, notifPc, allowPc);
        continue;
      }
      EntryAdded(tabled, s, i, prog);
      prog := prog + [Insn(JeqK, U8(notifPc - pc - 1), 0, nr)];
    }
    ReturnsAdded(tabled, s, prog);
    prog := prog + [Insn(RetK, 0, 0, RET_ALLOW)];
    prog := prog + [Insn(RetK, 0, 0, RET_USER_NOTIF)];
    EmittedIsCorrect(tabled, s, prog);
  }

  lemma EntryAdded(table: seq<nat>, s: nat, i: nat, prog: seq<Insn>)
    requires |table| + 7 <= 255 && OnlySendTo(table, s) && i < |table| && i != s
    requires |prog| == PcOf(s, i) && Preamble(table, prog) && Entries(table, s, i, prog)
    ensures var more := prog + [Insn(JeqK, U8(|table| + 9 - |prog| - 1), 0, table[i])];
            |more| == PcOf(s, i + 1) && Preamble(table, more) && Entries(table, s, i + 1, more)
  {}

  lemma SendToAdded(table: seq<nat>, s: nat, i: nat, prog: seq<Insn>)
    requires |table| + 7 <= 255 && OnlySendTo(table, s) && i == s
    requires |prog| == PcOf(s, i) && Preamble(table, prog) && Entries(table, s, i, prog)
    ensures var more := prog + SendToCode(|prog|, |table| + 9, |table| + 8);
            |more| == PcOf(s, i + 1) && Preamble(table, more) && Entries(table, s, i + 1, more)
  {}

  lemma ReturnsAdded(table: seq<nat>, s: nat, prog: seq<Insn>)
    requires OnlySendTo(table, s) && |prog| == PcOf(s, |table|) && Preamble(table, prog)
    requires Entries(table, s, |table|, prog)
    ensures Emitted(table, s, prog + [Insn(RetK, 0, 0, RET_ALLOW)] + [Insn(RetK, 0, 0, RET_USER_NOTIF)])
  {}

  lemma PreambleStands(table: seq<nat>, s: nat, prog: seq<Insn>)
    requires |table| + 7 <= 255 && OnlySendTo(table, s)
    requires prog == [Insn(LdAbs, 0, 0, DATA_ARCH)] + [Insn(JeqK, 0, U8(|table| + 9 - 1 - 1), AUDIT_ARCH_X86_64)]
                     + [Insn(LdAbs, 0, 0, DATA_NR)] + [Insn(JsetK, U8(|table| + 9 - 3 - 1), 0, X32_SYSCALL_BIT)]
    ensures |prog| == PcOf(s, 0) && Preamble(table, prog) && Entries(table, s, 0, prog)
  {}

  lemma EmittedIsCorrect(table: seq<nat>, s: nat, prog: seq<Insn>)
    requires Emitted(table, s, prog) && |table| + 7 <= 255
    ensures forall pc :: 0 <= pc < |prog| ==> prog[pc].jt <= 255 && prog[pc].jf <= 255
    ensures Decides(prog, table)
  {
    JumpsFit(table, s, prog);
    forall d | ValidData(d)
      ensures Exec(prog, d, 0, 0, |prog| + 1) == Ok(if Traps(table, d) then RET_USER_NOTIF else RET_ALLOW)
    {
      EmittedProgramDecides(table, s, prog, d);
    }
  }

  /** Every position of an emitted program is one of the listed ones, so all jumps fit a u8. */
  lemma JumpsFit(table: seq<nat>, s: nat, prog: seq<Insn>)
    requires Emitted(table, s, prog) && |table| + 7 <= 255
    ensures forall pc :: 0 <= pc < |prog| ==> prog[pc].jt <= 255 && prog[pc].jf <= 255
  {
    forall pc | 0 <= pc < |prog|
      ensures prog[pc].jt <= 255 && prog[pc].jf <= 255
    {
      if 4 <= pc < 4 + s {
        assert prog[PcOf(s, pc - 4)] == prog[pc];
      } else if s + 9 <= pc < |prog| - 2 {
        assert prog[PcOf(s, pc - 8)] == prog[pc];
      }
    }
  }

  // ----- the interpreter -----

  datatype Fault = PcOutOfRange | UnalignedLoad | UnmodeledLoad | BudgetExhausted

  function LoadAbs(d: Data, k: nat): Result<nat, Fault>
    requires |d.args| == 6
  {
    if k == DATA_NR then Ok(d.nr)
    else if k == DATA_ARCH then Ok(d.arch)
    else if DATA_ARGS <= k < DATA_ARGS + 48 then
      var relative := k - DATA_ARGS;
      var arg := d.args[relative / 8];
      if relative % 8 == 0 then Ok(arg % 0x1_0000_0000)
      else if relative % 8 == 4 then Ok(arg / 0x1_0000_0000)
      else Err(UnalignedLoad)
    else Err(UnmodeledLoad)
  }

  /** What the interpreter computes from `pc` with `acc` in at most `budget` instructions. */
  function Exec(prog: seq<Insn>, d: Data, pc: nat, acc: nat, budget: nat): Result<nat, Fault>
    requires |d.args| == 6
    decreases budget
  {
    if budget == 0 then Err(BudgetExhausted)
    else if pc >= |prog| then Err(PcOutOfRange)
    else
      var insn := prog[pc];
      match insn.code
      case LdAbs =>
        (match LoadAbs(d, insn.k)
         case Ok(value) => Exec(prog, d, pc + 1, value, budget - 1)
         case Err(e) => Err(e))
      case JeqK => Exec(prog, d, pc + 1 + (if acc == insn.k then insn.jt else insn.jf), acc, budget - 1)
      case JsetK => Exec(prog, d, pc + 1 + (if Bits.And(acc, insn.k) != 0 then insn.jt else insn.jf), acc, budget - 1)
      case RetK => Ok(insn.k)
  }

  method Run(prog: seq<Insn>, d: Data) returns (r: Result<nat, Fault>)
    requires |d.args| == 6
    ensures r == Exec(prog, d, 0, 0, |prog| + 1)
    ensures r != Err(BudgetExhausted)
  {
    BudgetSuffices(prog, d, 0, 0, |prog| + 1);
    var acc: nat, pc: nat := 0, 0;
    for step := 0 to |prog| + 1
      invariant Exec(prog, d, 0, 0, |prog| + 1) == Exec(prog, d, pc, acc, |prog| + 1 - step)
    {
      if pc >= |prog| {
        return Err(PcOutOfRange);
      }
      var insn := prog[pc];
      match insn.code
      case LdAbs =>
        var loaded := LoadAbs(d, insn.k);
        if loaded.Err? {
          return loaded;
        }
        acc, pc := loaded.value, pc + 1;
      case JeqK =>
        pc := pc + 1 + (if acc == insn.k then insn.jt else insn.jf);
      case JsetK =>
        pc := pc + 1 + (if Bits.And(acc, insn.k) != 0 then insn.jt else insn.jf);
      case RetK => return Ok(insn.k);
    }
    r := Err(BudgetExhausted);
  }

  /** Jumps only go forward, so no program of any shape outruns the budget. */
  lemma {:induction false} BudgetSuffices(prog: seq<Insn>, d: Data, pc: nat, acc: nat, budget: nat)
    requires |d.args| == 6 && budget >= 1 && budget + pc >= |prog| + 1
    ensures Exec(prog, d, pc, acc, budget) != Err(BudgetExhausted)
    decreases budget
  {
    if pc < |prog| {
      var insn := prog[pc];
      match insn.code
      case LdAbs =>
        var loaded := LoadAbs(d, insn.k);
        if loaded.Ok? {
          BudgetSuffices(prog, d, pc + 1, loaded.value, budget - 1);
        }
      case JeqK =>
        BudgetSuffices(prog, d, pc + 1 + (if acc == insn.k then insn.jt else insn.jf), acc, budget - 1);
      case JsetK =>
        BudgetSuffices(prog, d, pc + 1 + (if Bits.And(acc, insn.k) != 0 then insn.jt else insn.jf), acc, budget - 1);
      case RetK =>
    }
  }

  // ----- the two together -----

  predicate ConnectedSend(d: Data)
    requires |d.args| == 6
  {
    d.nr == SENDTO && d.args[4] == 0
  }

  /** What the tables ask for: foreign architectures, x32 numbers and tabled syscalls notify,
      except a `sendto` without a destination. */
  predicate Traps(table: seq<nat>, d: Data)
    requires |d.args| == 6
  {
    || d.arch != AUDIT_ARCH_X86_64
    || Bits.And(d.nr, X32_SYSCALL_BIT) != 0
    || (d.nr in table && !ConnectedSend(d))
  }

  lemma Return(prog: seq<Insn>, d: Data, pc: nat, acc: nat, budget: nat)
    requires |d.args| == 6 && pc < |prog| && prog[pc].code.RetK? && budget >= 1
    ensures Exec(prog, d, pc, acc, budget) == Ok(prog[pc].k)
  {}

  /** The SENDTO block compares both halves of the destination pointer and always returns, so
      the accumulator it clobbers reaches no later comparison. */
  lemma SendToBlock(table: seq<nat>, s: nat, prog: seq<Insn>, d: Data, budget: nat)
    requires Emitted(table, s, prog) && ValidData(d) && budget >= 6 && d.nr == SENDTO
    ensures Exec(prog, d, PcOf(s, s), d.nr, budget) == Ok(if d.args[4] == 0 then RET_ALLOW else RET_USER_NOTIF)
  {
    var pc, lo, hi := PcOf(s, s), d.args[4] % 0x1_0000_0000, d.args[4] / 0x1_0000_0000;
    assert LoadAbs(d, SENDTO_DEST_LO) == Ok(lo) && LoadAbs(d, SENDTO_DEST_HI) == Ok(hi);
    assert Exec(prog, d, pc, d.nr, budget) == Exec(prog, d, pc + 1, d.nr, budget - 1);
    assert Exec(prog, d, pc + 1, d.nr, budget - 1) == Exec(prog, d, pc + 2, lo, budget - 2);
    if lo == 0 {
      assert Exec(prog, d, pc + 2, lo, budget - 2) == Exec(prog, d, pc + 3, lo, budget - 3);
      assert Exec(prog, d, pc + 3, lo, budget - 3) == Exec(prog, d, pc + 4, hi, budget - 4);
      if hi == 0 {
        Return(prog, d, |prog| - 2, hi, budget - 5);
      } else {
        Return(prog, d, |prog| - 1, hi, budget - 5);
      }
    } else {
      Return(prog, d, |prog| - 1, lo, budget - 3);
    }
  }

  /** From the code of entry `i` on, with the syscall number loaded. */
  lemma {:induction false} EntriesDecide(table: seq<nat>, s: nat, prog: seq<Insn>, d: Data, i: nat, budget: nat)
    requires Emitted(table, s, prog) && ValidData(d) && i <= |table|
    requires budget + PcOf(s, i) >= |prog| + 1
    ensures Exec(prog, d, PcOf(s, i), d.nr, budget) ==
            Ok(if d.nr in table[i..] && !ConnectedSend(d) then RET_USER_NOTIF else RET_ALLOW)
    decreases |table| - i
  {
    var pc := PcOf(s, i);
    if i == |table| {
      Return(prog, d, pc, d.nr, budget);
    } else {
      assert table[i..] == [table[i]] + table[i + 1..];
      if d.nr != table[i] {
        EntriesDecide(table, s, prog, d, i + 1, budget - 1);
        assert Exec(prog, d, pc, d.nr, budget) == Exec(prog, d, PcOf(s, i + 1), d.nr, budget - 1);
      } else if i == s {
        SendToBlock(table, s, prog, d, budget);
      } else {
        Return(prog, d, |prog| - 1, d.nr, budget - 1);
      }
    }
  }

  lemma EmittedProgramDecides(table: seq<nat>, s: nat, prog: seq<Insn>, d: Data)
    requires Emitted(table, s, prog) && ValidData(d)
    ensures Exec(prog, d, 0, 0, |prog| + 1) == Ok(if Traps(table, d) then RET_USER_NOTIF else RET_ALLOW)
  {
    var budget, notif := |prog| + 1, |prog| - 1;
    assert table[0..] == table;
    assert Exec(prog, d, 0, 0, budget) == Exec(prog, d, 1, d.arch, budget - 1);
    if d.arch != AUDIT_ARCH_X86_64 {
      Return(prog, d, notif, d.arch, budget - 2);
    } else {
      assert Exec(prog, d, 1, d.arch, budget - 1) == Exec(prog, d, 2, d.arch, budget - 2);
      assert Exec(prog, d, 2, d.arch, budget - 2) == Exec(prog, d, 3, d.nr, budget - 3);
      if Bits.And(d.nr, X32_SYSCALL_BIT) != 0 {
        Return(prog, d, notif, d.nr, budget - 4);
      } else {
        EntriesDecide(table, s, prog, d, 0, budget - 4);
      }
    }
  }

  /** A tabled call notifies, a connected send excepted. */
  lemma TabledNotifies(prog: seq<Insn>, table: seq<nat>, d: Data)
    requires Decides(prog, table) && ValidData(d) && d.nr in table && !ConnectedSend(d)
    ensures Exec(prog, d, 0, 0, |prog| + 1) == Ok(RET_USER_NOTIF)
  {
    hide Exec;
    assert Traps(table, d);
  }

  /** The x32 test is bit 30 of the number. */
  lemma X32IsBitThirty(nr: nat)
    ensures Bits.And(nr, X32_SYSCALL_BIT) != 0 <==> (nr / 0x4000_0000) % 2 == 1
  {
    Bits.Pow2Words();
    Bits.AndSingleBit(nr, 30);
  }

  /** The shipped tables are ones the builder accepts. */
  lemma ShippedTablesAreBuildable()
    ensures Buildable(MEDIATED + DENIED_RECORDED)
  {
    assert OnlySendTo(MEDIATED + DENIED_RECORDED, 31);
  }
}
