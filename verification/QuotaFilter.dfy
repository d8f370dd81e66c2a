/** The seccomp program that keeps tenant code from rewriting XFS project identifiers, and the
    classic BPF machine that gives the program its meaning. */
module QuotaFilter {

  /** A 32-bit machine word. */
  type Word = w: int | 0 <= w < 0x1_0000_0000

  /** Bitwise conjunction of two natural numbers, one binary digit at a time. */
  function And(a: nat, b: nat): nat {
    if a == 0 || b == 0 then 0 else 2 * And(a / 2, b / 2) + (a % 2) * (b % 2)
  }

  function Pow2(n: nat): nat {
    if n == 0 then 1 else 2 * Pow2(n - 1)
  }

  lemma {:induction false} AndBounded(a: nat, b: nat)
    ensures And(a, b) <= a && And(a, b) <= b
  {
    if a != 0 && b != 0 {
      AndBounded(a / 2, b / 2);
      assert (a % 2) * (b % 2) <= a % 2 && (a % 2) * (b % 2) <= b % 2;
    }
  }

  function AndWord(a: Word, b: Word): Word {
    AndBounded(a, b);
    And(a, b)
  }

  /** One classic BPF instruction, as the kernel's sock_filter lays it out. */
  datatype Instruction = Instruction(code: nat, jt: nat, jf: nat, k: Word)

  datatype Outcome = Return(value: Word) | Fault

  /** The kernel's seccomp_data as sixteen little-endian words: word 0 is the system call number,
      word 1 the architecture, words 4 onwards the low and high halves of the six arguments. */
  type Call = c: seq<Word> | |c| == 16 witness seq(16, _ => 0)

  const LD_W_ABS: nat := 0x20
  const ALU_AND_K: nat := 0x54
  const JMP_JEQ_K: nat := 0x15
  const RET_K: nat := 0x06

  const ALLOW: Word := 0x7fff0000
  const ERRNO_EPERM: Word := 0x00050001
  const ERRNO_ENOSYS: Word := 0x00050026

  const X32_BIT: Word := 0x40000000
  const COMPAT_IOCTL: Word := 54

  const FSSETXATTR: Word := 0x401c5820
  const SETFLAGS_64: Word := 0x40086602
  const SETFLAGS_COMPAT: Word := 0x40046602

  /** The kernel's number for a request that passes `size` bytes in: direction, size, type and number. */
  function WriteRequest(kind: nat, number: nat, size: nat): nat {
    0x4000_0000 + 0x1_0000 * size + 0x100 * kind + number
  }

  /** The requests are the kernel's: setting extended attributes is request 32 of type X with 28 bytes, setting
      flags request 2 of type f with a native or a compatibility word. Refusals return errno 1 and 38. */
  lemma KernelNumbers()
    ensures FSSETXATTR == WriteRequest('X' as nat, 32, 28)
    ensures SETFLAGS_64 == WriteRequest('f' as nat, 2, 8) && SETFLAGS_COMPAT == WriteRequest('f' as nat, 2, 4)
    ensures ERRNO_EPERM == 0x5_0000 + 1 && ERRNO_ENOSYS == 0x5_0000 + 38 && ALLOW == 0x7fff_0000 && COMPAT_IOCTL == 54
  {
  }

  /** The machine: an accumulator and a program counter that only moves forward. */
  function Run(program: seq<Instruction>, call: Call, pc: nat, acc: Word): Outcome
    decreases |program| - pc
  {
    if pc >= |program| then Fault
    else
      var i := program[pc];
      if i.code == RET_K then Return(i.k)
      else if i.code == LD_W_ABS then
        var offset := i.k;
        if offset % 4 == 0 && offset < 64 then Run(program, call, pc + 1, call[offset / 4]) else Fault
      else if i.code == ALU_AND_K then Run(program, call, pc + 1, AndWord(acc, i.k))
      else if i.code == JMP_JEQ_K then Run(program, call, pc + 1 + (if acc == i.k then i.jt else i.jf), acc)
      else Fault
  }

  /** What the kernel's loader demands: known opcodes, aligned loads, and no way past the last instruction. */
  predicate Loadable(program: seq<Instruction>) {
    forall pc | 0 <= pc < |program| :: LoadableAt(program[pc], pc, |program|)
  }

  predicate LoadableAt(i: Instruction, pc: nat, size: nat) {
    || i.code == RET_K
    || (i.code == LD_W_ABS && i.k % 4 == 0 && i.k < 64 && pc + 1 < size)
    || (i.code == ALU_AND_K && pc + 1 < size)
    || (i.code == JMP_JEQ_K && pc + 1 + i.jt < size && pc + 1 + i.jf < size)
  }

  /** A loadable program always halts, and always at one of its own return instructions. */
  lemma {:induction false} LoadableHalts(program: seq<Instruction>, call: Call, pc: nat, acc: Word)
    requires Loadable(program) && pc < |program|
    ensures exists at | pc <= at < |program| ::
              program[at].code == RET_K && Run(program, call, pc, acc) == Return(program[at].k)
    decreases |program| - pc
  {
    var i := program[pc];
    assert LoadableAt(i, pc, |program|);
    if i.code == LD_W_ABS {
      LoadableHalts(program, call, pc + 1, call[i.k / 4]);
    } else if i.code == ALU_AND_K {
      LoadableHalts(program, call, pc + 1, AndWord(acc, i.k));
    } else if i.code == JMP_JEQ_K {
      LoadableHalts(program, call, pc + 1 + (if acc == i.k then i.jt else i.jf), acc);
    }
  }

  /** The seventeen instructions installed before tenant code runs. */
  function Rules(native: Word, compat: Word, ioctl: Word): seq<Instruction> {
    [ Instruction(LD_W_ABS, 0, 0, 4),
      Instruction(JMP_JEQ_K, 0, 4, native),
      Instruction(LD_W_ABS, 0, 0, 0),
      Instruction(ALU_AND_K, 0, 0, 0xbfffffff),
      Instruction(JMP_JEQ_K, 6, 0, ioctl),
      Instruction(RET_K, 0, 0, ALLOW),
      Instruction(JMP_JEQ_K, 0, 3, compat),
      Instruction(LD_W_ABS, 0, 0, 0),
      Instruction(JMP_JEQ_K, 2, 0, COMPAT_IOCTL),
      Instruction(RET_K, 0, 0, ALLOW),
      Instruction(RET_K, 0, 0, ERRNO_ENOSYS),
      Instruction(LD_W_ABS, 0, 0, 24),
      Instruction(JMP_JEQ_K, 3, 0, FSSETXATTR),
      Instruction(JMP_JEQ_K, 2, 0, SETFLAGS_64),
      Instruction(JMP_JEQ_K, 1, 0, SETFLAGS_COMPAT),
      Instruction(RET_K, 0, 0, ALLOW),
      Instruction(RET_K, 0, 0, ERRNO_EPERM) ]
  }

  function Number(call: Call): Word { call[0] }
  function Architecture(call: Call): Word { call[1] }
  function Request(call: Call): Word { call[6] }

  /** The policy, stated without reference to the program: which calls it takes for an ioctl. On the native
      architecture these are the calls numbered ioctl, with or without the x32 bit. */
  predicate IsIoctl(call: Call, native: Word, compat: Word, ioctl: Word) {
    if Architecture(call) == native then Number(call) == ioctl || Number(call) == ioctl + X32_BIT
    else Architecture(call) == compat && Number(call) == COMPAT_IOCTL
  }

  predicate ChangesProject(call: Call) {
    Request(call) in {FSSETXATTR, SETFLAGS_64, SETFLAGS_COMPAT}
  }

  lemma RulesLoadable(native: Word, compat: Word, ioctl: Word)
    ensures |Rules(native, compat, ioctl)| == 17 && Loadable(Rules(native, compat, ioctl))
  {
    var rules := Rules(native, compat, ioctl);
    forall pc | 0 <= pc < |rules| ensures LoadableAt(rules[pc], pc, |rules|) {
      if pc < 8 {} else {}
    }
  }

  lemma RequestBlock(native: Word, compat: Word, ioctl: Word, call: Call, acc: Word)
    ensures Run(Rules(native, compat, ioctl), call, 11, acc)
         == Return(if ChangesProject(call) then ERRNO_EPERM else ALLOW)
  {
    var rules, request := Rules(native, compat, ioctl), Request(call);
    assert Run(rules, call, 16, request) == Return(ERRNO_EPERM);
    assert Run(rules, call, 15, request) == Return(ALLOW);
    assert Run(rules, call, 14, request) == Return(if request == SETFLAGS_COMPAT then ERRNO_EPERM else ALLOW);
    assert Run(rules, call, 13, request)
        == Return(if request == SETFLAGS_COMPAT || request == SETFLAGS_64 then ERRNO_EPERM else ALLOW);
    assert Run(rules, call, 12, request) == Return(if ChangesProject(call) then ERRNO_EPERM else ALLOW);
  }

  function Bit(a: nat, n: nat): (digit: nat)
    ensures digit <= 1
  {
    if n == 0 then a % 2 else Bit(a / 2, n - 1)
  }

  /** The binary numeral 10 followed by n ones. */
  function MaskAbove(n: nat): nat {
    if n == 0 then 2 else 2 * MaskAbove(n - 1) + 1
  }

  lemma {:induction false} MaskClearsOneBit(a: nat, n: nat)
    requires a < 4 * Pow2(n)
    ensures And(a, MaskAbove(n)) == a - Bit(a, n) * Pow2(n)
  {
    if n == 0 {
      assert And(0, 2) == 0 && And(1, 2) == 0 && And(2, 2) == 2 && And(3, 2) == 2;
    } else {
      MaskClearsOneBit(a / 2, n - 1);
    }
  }

  lemma {:induction false} SettingAClearBit(a: nat, n: nat)
    requires Bit(a, n) == 0
    ensures Bit(a + Pow2(n), n) == 1
  {
    if n > 0 {
      SettingAClearBit(a / 2, n - 1);
      assert (a + Pow2(n)) / 2 == a / 2 + Pow2(n - 1);
    }
  }

  lemma {:induction false} SmallNumbersLackTheBit(a: nat, n: nat)
    requires a < Pow2(n)
    ensures Bit(a, n) == 0
  {
    if n > 0 { SmallNumbersLackTheBit(a / 2, n - 1); }
  }

  lemma {:induction false} MaskValue(n: nat)
    ensures MaskAbove(n) == 3 * Pow2(n) - 1
  {
    if n > 0 { MaskValue(n - 1); }
  }

  lemma {:induction false} PowersMultiply(m: nat, n: nat)
    ensures Pow2(m + n) == Pow2(m) * Pow2(n)
  {
    if m > 0 { PowersMultiply(m - 1, n); }
  }

  lemma X32Mask()
    ensures MaskAbove(30) == 0xbfffffff && Pow2(30) == X32_BIT
  {
    assert Pow2(10) == 0x400;
    PowersMultiply(10, 10);
    PowersMultiply(20, 10);
    MaskValue(30);
  }

  /** Clearing bit 30 identifies exactly a number and its x32 alias. */
  lemma X32Alias(number: Word, ioctl: Word)
    requires Bit(ioctl, 30) == 0
    ensures And(number, 0xbfffffff) == ioctl <==> number == ioctl || number == ioctl + X32_BIT
  {
    X32Mask();
    MaskClearsOneBit(number, 30);
    SettingAClearBit(ioctl, 30);
  }

  lemma NativeBlock(native: Word, compat: Word, ioctl: Word, call: Call, acc: Word)
    requires Bit(ioctl, 30) == 0
    ensures Run(Rules(native, compat, ioctl), call, 2, acc)
         == Return(if (Number(call) == ioctl || Number(call) == ioctl + X32_BIT) && ChangesProject(call)
                   then ERRNO_EPERM else ALLOW)
  {
    var rules, masked := Rules(native, compat, ioctl), AndWord(Number(call), 0xbfffffff);
    X32Alias(Number(call), ioctl);
    RequestBlock(native, compat, ioctl, call, masked);
    assert Run(rules, call, 5, masked) == Return(ALLOW);
    assert Run(rules, call, 4, masked) == if masked == ioctl then Run(rules, call, 11, masked) else Return(ALLOW);
    assert Run(rules, call, 3, Number(call)) == Run(rules, call, 4, masked);
  }

  lemma CompatBlock(native: Word, compat: Word, ioctl: Word, call: Call)
    ensures Run(Rules(native, compat, ioctl), call, 6, Architecture(call))
         == Return(if Architecture(call) != compat then ERRNO_ENOSYS
                   else if Number(call) == COMPAT_IOCTL && ChangesProject(call) then ERRNO_EPERM else ALLOW)
  {
    var rules := Rules(native, compat, ioctl);
    RequestBlock(native, compat, ioctl, call, Number(call));
    assert Run(rules, call, 10, Architecture(call)) == Return(ERRNO_ENOSYS);
    assert Run(rules, call, 9, Number(call)) == Return(ALLOW);
    assert Run(rules, call, 8, Number(call))
        == if Number(call) == COMPAT_IOCTL then Run(rules, call, 11, Number(call)) else Return(ALLOW);
    assert Run(rules, call, 7, Architecture(call)) == Run(rules, call, 8, Number(call));
  }

  /** The meaning of the installed program, for every call: EPERM exactly for a project-changing
      ioctl, ENOSYS exactly for a third architecture, ALLOW otherwise. */
  lemma FilterMeaning(native: Word, compat: Word, ioctl: Word, call: Call)
    requires Bit(ioctl, 30) == 0
    ensures var verdict := Run(Rules(native, compat, ioctl), call, 0, 0);
            && (verdict == Return(ERRNO_EPERM) <==> IsIoctl(call, native, compat, ioctl) && ChangesProject(call))
            && (verdict == Return(ERRNO_ENOSYS) <==> Architecture(call) != native && Architecture(call) != compat)
            && verdict in {Return(ERRNO_EPERM), Return(ERRNO_ENOSYS), Return(ALLOW)}
  {
    var rules := Rules(native, compat, ioctl);
    NativeBlock(native, compat, ioctl, call, Architecture(call));
    CompatBlock(native, compat, ioctl, call);
    assert Run(rules, call, 1, Architecture(call))
        == if Architecture(call) == native then Run(rules, call, 2, Architecture(call))
           else Run(rules, call, 6, Architecture(call));
    assert Run(rules, call, 0, 0) == Run(rules, call, 1, Architecture(call));
  }

  /** The two supported hosts, with their audit architectures and ioctl numbers. */
  datatype Host = Amd64 | Arm64

  function HostRules(host: Host): seq<Instruction> {
    match host
    case Amd64 => Rules(0xC000003E, 0x40000003, 16)
    case Arm64 => Rules(0xC00000B7, 0x40000028, 29)
  }

  predicate IsHostIoctl(host: Host, call: Call) {
    match host
    case Amd64 => IsIoctl(call, 0xC000003E, 0x40000003, 16)
    case Arm64 => IsIoctl(call, 0xC00000B7, 0x40000028, 29)
  }

  /** On either host a call is refused exactly if it is numbered ioctl, natively with or without the x32 bit or
      in compatibility mode, and makes a project-changing request. */
  lemma HostsRefuse(host: Host, call: Call)
    ensures Run(HostRules(host), call, 0, 0) == Return(ERRNO_EPERM) <==> IsHostIoctl(host, call) && ChangesProject(call)
  {
    X32Mask();
    match host
    case Amd64 =>
      SmallNumbersLackTheBit(16, 30);
      FilterMeaning(0xC000003E, 0x40000003, 16, call);
    case Arm64 =>
      SmallNumbersLackTheBit(29, 30);
      FilterMeaning(0xC00000B7, 0x40000028, 29, call);
  }

  /** Other numbers are not taken for an ioctl: number 514 with the x32 bit, under which Linux lists ioctl in its
      x32 table, is allowed with any request. */
  lemma OwnX32NumberAllowed(call: Call)
    requires Architecture(call) == 0xC000003E && Number(call) == 514 + X32_BIT
    ensures Run(HostRules(Amd64), call, 0, 0) == Return(ALLOW)
  {
    X32Mask();
    SmallNumbersLackTheBit(16, 30);
    FilterMeaning(0xC000003E, 0x40000003, 16, call);
  }
}
