/**
 The seccomp filter compiler of apps/renderer/driver/isolation.py.

 An architecture record is compiled to a classic-BPF program whose jumps are computed from the
 lengths of two lists of system call numbers, and the program is packed into bytes. The module
 gives BPF its meaning, states the policy as a plain function of the system call, and proves that
 the packed bytes decide exactly that policy.
 */
module Seccomp {
  import opened Wrappers

  const SECCOMP_RET_KILL_PROCESS := 0x8000_0000
  const SECCOMP_RET_ERRNO := 0x0005_0000
  const SECCOMP_RET_ALLOW := 0x7FFF_0000
  const EPERM := 1
  // SECCOMP_RET_ERRNO | errno.EPERM: the two operands share no bit.
  const DENY := SECCOMP_RET_ERRNO + EPERM

  const BPF_LD_W_ABS := 0x20
  const BPF_JEQ_K := 0x15
  const BPF_JGE_K := 0x35
  const BPF_RET_K := 0x06

  const SECCOMP_DATA_NR := 0
  const SECCOMP_DATA_ARCH := 4
  const SECCOMP_DATA_ARG0 := 16
  const SECCOMP_DATA_BYTES := 64

  const AF_UNIX := 1
  const X32_SYSCALL_BIT := 0x4000_0000

  const WORD_SIZE := 0x1_0000_0000
  const QUAD_SIZE := 0x1_0000_0000_0000_0000

  type Byte = x: int | 0 <= x < 0x100
  type Word = x: int | 0 <= x < WORD_SIZE
  type Quad = x: int | 0 <= x < QUAD_SIZE

  /** The fields are Python integers: only packing decides which of them can be emitted. */
  datatype Arch = Arch(auditArch: int, socketCalls: seq<int>, deniedCalls: seq<int>, hasX32: bool)

  datatype Instruction = Instruction(code: int, jt: int, jf: int, k: int)

  datatype Error =
    | UnknownMachine(name: string)
    | FieldOutOfRange(at: Instruction)

  const ARCHES: map<string, Arch> := map[
    "x86_64" := Arch(0xC000_003E, [41, 53], [425, 426, 427, 101, 310, 311], true),
    "aarch64" := Arch(0xC000_00B7, [198, 199], [425, 426, 427, 117, 270, 271], false)
  ]

  // ---------------------------------------------------------------------------
  // The meaning of a packed program
  // ---------------------------------------------------------------------------

  /** What the kernel shows a filter: struct seccomp_data. */
  datatype SyscallData = SyscallData(nr: Word, arch: Word, ip: Quad, args: seq<Quad>) {
    predicate Valid() { |args| == 6 }

    /** The little-endian 32-bit word at a byte offset the kernel accepts. */
    function Load(offset: nat): Word
      requires Valid() && offset % 4 == 0 && offset < SECCOMP_DATA_BYTES
    {
      if offset == 0 then nr
      else if offset == 4 then arch
      else
        var quad := if offset < 16 then ip else args[(offset - 16) / 8];
        if offset % 8 == 0 then quad % WORD_SIZE else quad / WORD_SIZE
    }
  }

  datatype Outcome = Return(value: int) | Fault

  /** The classic-BPF machine: a fault is leaving the program, or a load or code it doesn't have. */
  function Run(program: seq<Instruction>, pc: nat, acc: Word, data: SyscallData): Outcome
    requires data.Valid()
    decreases |program| - pc
  {
    if pc >= |program| then Fault
    else
      var Instruction(code, jt, jf, k) := program[pc];
      if code == BPF_LD_W_ABS then
        if 0 <= k < SECCOMP_DATA_BYTES && k % 4 == 0 then Run(program, pc + 1, data.Load(k), data)
        else Fault
      else if code == BPF_RET_K then Return(k)
      else if jt < 0 || jf < 0 then Fault
      else if code == BPF_JEQ_K then Run(program, pc + 1 + (if acc == k then jt else jf), acc, data)
      else if code == BPF_JGE_K then Run(program, pc + 1 + (if acc >= k then jt else jf), acc, data)
      else Fault
  }

  /** A socket domain is a C int, so the low half of the first argument decides. */
  function SocketVerdict(data: SyscallData): int
    requires data.Valid()
  {
    if data.args[0] % WORD_SIZE == AF_UNIX then SECCOMP_RET_ALLOW else DENY
  }

  /** The decision asked for: what each system call is to get, with no program in sight. */
  function Policy(arch: Arch, data: SyscallData): int
    requires data.Valid()
  {
    if data.arch != arch.auditArch then SECCOMP_RET_KILL_PROCESS
    else if arch.hasX32 && data.nr >= X32_SYSCALL_BIT then SECCOMP_RET_KILL_PROCESS
    else if data.nr in arch.socketCalls then SocketVerdict(data)
    else if data.nr in arch.deniedCalls then DENY
    else SECCOMP_RET_ALLOW
  }

  // ---------------------------------------------------------------------------
  // Packing: struct.pack("HBBI") on a little-endian machine, and its inverse
  // ---------------------------------------------------------------------------

  predicate Packable(item: Instruction) {
    && 0 <= item.code < 0x1_0000
    && 0 <= item.jt < 0x100
    && 0 <= item.jf < 0x100
    && 0 <= item.k < WORD_SIZE
  }

  /** The four bytes of a 32-bit field, lowest first. */
  function LittleEndian(k: Word): (bytes: seq<Byte>)
    ensures |bytes| == 4
  {
    var k1 := k / 0x100;
    var k2 := k1 / 0x100;
    [k % 0x100, k1 % 0x100, k2 % 0x100, k2 / 0x100]
  }

  function Pack(item: Instruction): seq<Byte>
    requires Packable(item)
  {
    [item.code % 0x100, item.code / 0x100, item.jt, item.jf] + LittleEndian(item.k)
  }

  function Unpack(bytes: seq<Byte>): Instruction
    requires |bytes| == 8
  {
    var b: seq<int> := bytes;
    Instruction(b[0] + b[1] * 0x100, b[2], b[3],
                b[4] + b[5] * 0x100 + b[6] * 0x1_0000 + b[7] * 0x100_0000)
  }

  /** The concatenated instructions, or the first one struct.pack refuses. */
  /** The eight bytes, one by one: code, jt, jf and k, the least significant byte of a number first. */
  lemma PackedBytes(item: Instruction)
    requires Packable(item)
    ensures Pack(item) == [item.code % 256, item.code / 256, item.jt, item.jf,
                           item.k % 256, item.k / 256 % 256, item.k / 0x1_0000 % 256, item.k / 0x100_0000]
  {
  }

  function Encode(program: seq<Instruction>): Result<seq<Byte>, Error> {
    if program == [] then Success([])
    else if !Packable(program[0]) then Failure(FieldOutOfRange(program[0]))
    else
      match Encode(program[1..])
      case Failure(error) => Failure(error)
      case Success(rest) => Success(Pack(program[0]) + rest)
  }

  function Decode(bytes: seq<Byte>): (program: seq<Instruction>)
    ensures |program| == |bytes| / 8
  {
    if |bytes| < 8 then [] else [Unpack(bytes[..8])] + Decode(bytes[8..])
  }

  lemma PackUnpack(item: Instruction)
    requires Packable(item)
    ensures Unpack(Pack(item)) == item
  {
    var k1 := item.k / 0x100;
    var k2 := k1 / 0x100;
    assert LittleEndian(item.k) == [item.k % 0x100, k1 % 0x100, k2 % 0x100, k2 / 0x100];
    assert item.k == item.k % 0x100 + 0x100 * k1;
    assert k1 == k1 % 0x100 + 0x100 * k2;
    assert k2 == k2 % 0x100 + 0x100 * (k2 / 0x100);
  }

  /** Packing succeeds exactly when every field fits, and the bytes decode to the same program. */
  lemma {:induction false} EncodeDecode(program: seq<Instruction>)
    ensures Encode(program).Success? <==> forall i :: 0 <= i < |program| ==> Packable(program[i])
    ensures Encode(program).Success? ==>
              && |Encode(program).value| == 8 * |program|
              && Decode(Encode(program).value) == program
  {
    if program == [] {
    } else {
      EncodeDecode(program[1..]);
      if Packable(program[0]) && Encode(program[1..]).Success? {
        var head, rest := Pack(program[0]), Encode(program[1..]).value;
        PackUnpack(program[0]);
        assert (head + rest)[..8] == head && (head + rest)[8..] == rest;
      }
      assert forall i :: 1 <= i < |program| ==> program[i] == program[1..][i - 1];
    }
  }

  // ---------------------------------------------------------------------------
  // The compiler
  // ---------------------------------------------------------------------------

  function Jump(jt: int, number: int): Instruction {
    Instruction(BPF_JEQ_K, jt, 0, number)
  }

  function Ret(value: int): Instruction {
    Instruction(BPF_RET_K, 0, 0, value)
  }

  function Prologue(arch: Arch): seq<Instruction> {
    [Instruction(BPF_LD_W_ABS, 0, 0, SECCOMP_DATA_ARCH),
     Instruction(BPF_JEQ_K, 1, 0, arch.auditArch),
     Ret(SECCOMP_RET_KILL_PROCESS),
     Instruction(BPF_LD_W_ABS, 0, 0, SECCOMP_DATA_NR)]
    + if arch.hasX32 then
        [Instruction(BPF_JGE_K, 0, 1, X32_SYSCALL_BIT), Ret(SECCOMP_RET_KILL_PROCESS)]
      else []
  }

  function SocketChecks(arch: Arch): seq<Instruction> {
    var checks := |arch.socketCalls| + |arch.deniedCalls|;
    seq(|arch.socketCalls|, i requires 0 <= i < |arch.socketCalls| =>
      Jump(checks - i + 1, arch.socketCalls[i]))
  }

  function DeniedChecks(arch: Arch): seq<Instruction> {
    var denied := |arch.deniedCalls|;
    seq(denied, i requires 0 <= i < denied => Jump(denied - i - 1 + 1, arch.deniedCalls[i]))
  }

  const EPILOGUE := [
    Ret(SECCOMP_RET_ALLOW),
    Ret(DENY),
    Instruction(BPF_LD_W_ABS, 0, 0, SECCOMP_DATA_ARG0),
    Instruction(BPF_JEQ_K, 0, 1, AF_UNIX),
    Ret(SECCOMP_RET_ALLOW),
    Ret(DENY)
  ]

  function Program(arch: Arch): seq<Instruction> {
    Prologue(arch) + SocketChecks(arch) + DeniedChecks(arch) + EPILOGUE
  }

  /** The list the two loops grow. */
  method BuildProgram(arch: Arch) returns (program: seq<Instruction>)
    ensures program == Program(arch)
  {
    program := [
      Instruction(BPF_LD_W_ABS, 0, 0, SECCOMP_DATA_ARCH),
      Instruction(BPF_JEQ_K, 1, 0, arch.auditArch),
      Instruction(BPF_RET_K, 0, 0, SECCOMP_RET_KILL_PROCESS),
      Instruction(BPF_LD_W_ABS, 0, 0, SECCOMP_DATA_NR)
    ];
    if arch.hasX32 {
      program := program + [
        Instruction(BPF_JGE_K, 0, 1, X32_SYSCALL_BIT),
        Instruction(BPF_RET_K, 0, 0, SECCOMP_RET_KILL_PROCESS)
      ];
    }
    var checks := |arch.socketCalls| + |arch.deniedCalls|;
    for index := 0 to |arch.socketCalls|
      invariant program == Prologue(arch) + SocketChecks(arch)[..index]
    {
      program := program + [Jump(checks - index + 1, arch.socketCalls[index])];
    }
    for index := 0 to |arch.deniedCalls|
      invariant program == Prologue(arch) + SocketChecks(arch) + DeniedChecks(arch)[..index]
    {
      var remaining := |arch.deniedCalls| - index - 1;
      program := program + [Jump(remaining + 1, arch.deniedCalls[index])];
    }
    program := program + EPILOGUE;
  }

  /** Exactly the records whose numbers are 32-bit and whose jumps fit the 8-bit fields. */
  predicate Compilable(arch: Arch) {
    && 0 <= arch.auditArch < WORD_SIZE
    && (forall i :: 0 <= i < |arch.socketCalls| ==> 0 <= arch.socketCalls[i] < WORD_SIZE)
    && (forall i :: 0 <= i < |arch.deniedCalls| ==> 0 <= arch.deniedCalls[i] < WORD_SIZE)
    && (arch.socketCalls != [] ==> |arch.socketCalls| + |arch.deniedCalls| <= 254)
    && |arch.deniedCalls| <= 255
  }

  method CompileArch(arch: Arch) returns (result: Result<seq<Byte>, Error>)
    ensures result == Encode(Program(arch))
  {
    var program := BuildProgram(arch);
    result := Encode(program);
  }

  function Checks(arch: Arch): nat {
    |arch.socketCalls| + |arch.deniedCalls|
  }

  function Base(arch: Arch): nat {
    if arch.hasX32 then 6 else 4
  }

  /** Where every instruction of the program stands. */
  lemma Layout(arch: Arch)
    ensures var p, base, socket, tail := Program(arch), Base(arch), |arch.socketCalls|, Base(arch) + Checks(arch);
            && |p| == tail + 6
            && p[..base] == Prologue(arch)
            && (forall i :: 0 <= i < base ==> p[i] == Prologue(arch)[i])
            && (forall i :: base <= i < base + socket ==>
                  p[i] == Jump(Checks(arch) - (i - base) + 1, arch.socketCalls[i - base]))
            && (forall i :: base + socket <= i < tail ==>
                  p[i] == Jump(tail - i, arch.deniedCalls[i - base - socket]))
            && (forall i :: tail <= i < tail + 6 ==> p[i] == EPILOGUE[i - tail])
  {
  }

  lemma CompilableThenPackable(arch: Arch, i: nat)
    requires Compilable(arch) && i < |Program(arch)|
    ensures Packable(Program(arch)[i])
  {
    Layout(arch);
  }

  lemma SocketAt(arch: Arch, i: nat)
    requires i < |arch.socketCalls|
    ensures Base(arch) + i < |Program(arch)|
    ensures Program(arch)[Base(arch) + i] == Jump(Checks(arch) - i + 1, arch.socketCalls[i])
  {
    Layout(arch);
  }

  lemma DeniedAt(arch: Arch, i: nat)
    requires i < |arch.deniedCalls|
    ensures Base(arch) + |arch.socketCalls| + i < |Program(arch)|
    ensures Program(arch)[Base(arch) + |arch.socketCalls| + i] ==
            Jump(|arch.deniedCalls| - i, arch.deniedCalls[i])
  {
    Layout(arch);
  }

  lemma PackableThenCompilable(arch: Arch, p: seq<Instruction>)
    requires p == Program(arch)
    requires forall i :: 0 <= i < |p| ==> Packable(p[i])
    ensures Compilable(arch)
  {
    Layout(arch);
    assert Packable(p[1]) && p[1].k == arch.auditArch;
    forall i | 0 <= i < |arch.socketCalls|
      ensures 0 <= arch.socketCalls[i] < WORD_SIZE && Checks(arch) - i + 1 <= 255
    {
      SocketAt(arch, i);
      assert Packable(p[Base(arch) + i]);
    }
    forall i | 0 <= i < |arch.deniedCalls|
      ensures 0 <= arch.deniedCalls[i] < WORD_SIZE && |arch.deniedCalls| - i <= 255
    {
      DeniedAt(arch, i);
      assert Packable(p[Base(arch) + |arch.socketCalls| + i]);
    }
    assert arch.socketCalls != [] ==> arch.socketCalls[0] < WORD_SIZE;
    assert arch.deniedCalls != [] ==> arch.deniedCalls[0] < WORD_SIZE;
  }

  /** Packing is refused exactly for the records outside Compilable: there is no silent truncation. */
  lemma EncodableIffCompilable(arch: Arch)
    ensures Encode(Program(arch)).Success? <==> Compilable(arch)
  {
    EncodeDecode(Program(arch));
    if Compilable(arch) {
      forall i | 0 <= i < |Program(arch)|
        ensures Packable(Program(arch)[i])
      {
        CompilableThenPackable(arch, i);
      }
    }
    if forall i :: 0 <= i < |Program(arch)| ==> Packable(Program(arch)[i]) {
      PackableThenCompilable(arch, Program(arch));
    }
  }

  /** The filter for a named machine, or for the host's own when no name, or an empty one, is given. */
  method BuildSeccompFilter(machine: Option<string>, host: string) returns (result: Result<seq<Byte>, Error>)
    ensures var name := if machine == None || machine == Some("") then host else machine.value;
            if name in ARCHES then result.Success? && result == Encode(Program(ARCHES[name]))
            else result == Failure(UnknownMachine(name))
  {
    var name := if machine == None || machine == Some("") then host else machine.value;
    if name !in ARCHES {
      return Failure(UnknownMachine(name));
    }
    result := CompileArch(ARCHES[name]);
    EncodableIffCompilable(ARCHES[name]);
  }

  // ---------------------------------------------------------------------------
  // Correctness
  // ---------------------------------------------------------------------------

  lemma EpilogueAt(arch: Arch, i: nat)
    requires i < 6
    ensures |Program(arch)| == Base(arch) + Checks(arch) + 6
    ensures Program(arch)[Base(arch) + Checks(arch) + i] == EPILOGUE[i]
  {
    Layout(arch);
  }

  /** Every jump lands inside the program and the last instruction returns, as the kernel demands. */
  lemma JumpsStayInside(arch: Arch, pc: nat)
    requires pc < |Program(arch)|
    ensures var p := Program(arch);
            && 0 <= p[pc].jt && 0 <= p[pc].jf
            && (p[pc].code != BPF_RET_K ==> pc + 1 + p[pc].jt < |p| && pc + 1 + p[pc].jf < |p|)
  {
    Layout(arch);
  }

  /** Every instruction returns, jumps on a comparison, or loads a word the kernel has. */
  predicate Known(item: Instruction) {
    || item.code == BPF_RET_K || item.code == BPF_JEQ_K || item.code == BPF_JGE_K
    || (item.code == BPF_LD_W_ABS && 0 <= item.k < SECCOMP_DATA_BYTES && item.k % 4 == 0)
  }

  lemma InstructionsAreKnown(arch: Arch, pc: nat)
    requires pc < |Program(arch)|
    ensures Known(Program(arch)[pc])
  {
    Layout(arch);
  }

  /** Execution from any instruction, with anything in the accumulator, ends at a return. */
  lemma {:induction false} EveryRunReturns(arch: Arch, pc: nat, acc: Word, data: SyscallData)
    requires data.Valid() && pc < |Program(arch)|
    ensures Run(Program(arch), pc, acc, data).Return?
    decreases |Program(arch)| - pc
  {
    hide Program;
    var p := Program(arch);
    var Instruction(code, jt, jf, k) := p[pc];
    JumpsStayInside(arch, pc);
    InstructionsAreKnown(arch, pc);
    if code == BPF_LD_W_ABS {
      EveryRunReturns(arch, pc + 1, data.Load(k), data);
    } else if code != BPF_RET_K {
      EveryRunReturns(arch, pc + 1 + jt, acc, data);
      EveryRunReturns(arch, pc + 1 + jf, acc, data);
    }
  }

  /** The domain check at the end of the program. */
  lemma DomainCheck(arch: Arch, acc: Word, data: SyscallData)
    requires data.Valid()
    ensures Run(Program(arch), Base(arch) + Checks(arch) + 2, acc, data) == Return(SocketVerdict(data))
  {
    var p, at := Program(arch), Base(arch) + Checks(arch) + 2;
    var domain := data.Load(SECCOMP_DATA_ARG0);
    EpilogueAt(arch, 2);
    EpilogueAt(arch, 3);
    EpilogueAt(arch, 4);
    EpilogueAt(arch, 5);
    assert Run(p, at, acc, data) == Run(p, at + 1, domain, data);
    assert Run(p, at + 1, domain, data) == Run(p, at + 2 + (if domain == AF_UNIX then 0 else 1), domain, data);
  }

  /** A denied check falls through to the next check, or jumps to the refusal. */
  lemma DeniedStep(arch: Arch, i: nat, data: SyscallData)
    requires data.Valid() && i < |arch.deniedCalls|
    ensures Run(Program(arch), Base(arch) + |arch.socketCalls| + i, data.nr, data) ==
            if data.nr == arch.deniedCalls[i] then Return(DENY)
            else Run(Program(arch), Base(arch) + |arch.socketCalls| + i + 1, data.nr, data)
  {
    DeniedAt(arch, i);
    EpilogueAt(arch, 1);
  }

  /** From check i of the denied list on, the denied numbers from i on decide. */
  lemma {:induction false} DeniedPhase(arch: Arch, i: nat, data: SyscallData)
    requires data.Valid() && i <= |arch.deniedCalls|
    ensures Run(Program(arch), Base(arch) + |arch.socketCalls| + i, data.nr, data) ==
            Return(if data.nr in arch.deniedCalls[i..] then DENY else SECCOMP_RET_ALLOW)
    decreases |arch.deniedCalls| - i
  {
    if i == |arch.deniedCalls| {
      EpilogueAt(arch, 0);
    } else {
      DeniedPhase(arch, i + 1, data);
      assert arch.deniedCalls[i..] == [arch.deniedCalls[i]] + arch.deniedCalls[i + 1..];
      DeniedStep(arch, i, data);
    }
  }

  /** A socket check falls through to the next check, or jumps over all that remain. */
  lemma SocketStep(arch: Arch, i: nat, data: SyscallData)
    requires data.Valid() && i < |arch.socketCalls|
    ensures Run(Program(arch), Base(arch) + i, data.nr, data) ==
            Run(Program(arch), if data.nr == arch.socketCalls[i] then Base(arch) + Checks(arch) + 2
                               else Base(arch) + i + 1, data.nr, data)
  {
    SocketAt(arch, i);
  }

  /** From check i of the socket list on, a socket entry wins over a duplicate denied one. */
  lemma {:induction false} SocketPhase(arch: Arch, i: nat, data: SyscallData)
    requires data.Valid() && i <= |arch.socketCalls|
    ensures Run(Program(arch), Base(arch) + i, data.nr, data) ==
            Return(if data.nr in arch.socketCalls[i..] then SocketVerdict(data)
                   else if data.nr in arch.deniedCalls then DENY
                   else SECCOMP_RET_ALLOW)
    decreases |arch.socketCalls| - i
  {
    if i == |arch.socketCalls| {
      DeniedPhase(arch, 0, data);
      assert arch.deniedCalls[0..] == arch.deniedCalls;
    } else {
      SocketPhase(arch, i + 1, data);
      assert arch.socketCalls[i..] == [arch.socketCalls[i]] + arch.socketCalls[i + 1..];
      SocketStep(arch, i, data);
      DomainCheck(arch, data.nr, data);
    }
  }

  /** The compiled program decides the policy, for every record and every system call. */
  lemma ProgramDecidesPolicy(arch: Arch, data: SyscallData)
    requires data.Valid()
    ensures Run(Program(arch), 0, 0, data) == Return(Policy(arch, data))
  {
    var p := Program(arch);
    Layout(arch);
    assert p[0] == Prologue(arch)[0] && p[1] == Prologue(arch)[1];
    assert p[2] == Prologue(arch)[2] && p[3] == Prologue(arch)[3];
    assert Run(p, 0, 0, data) == Run(p, 1, data.arch, data);
    if data.arch != arch.auditArch {
      assert Run(p, 1, data.arch, data) == Run(p, 2, data.arch, data);
    } else {
      assert Run(p, 1, data.arch, data) == Run(p, 3, data.arch, data) == Run(p, 4, data.nr, data);
      SocketPhase(arch, 0, data);
      assert arch.socketCalls[0..] == arch.socketCalls;
      if arch.hasX32 {
        assert p[4] == Prologue(arch)[4] && p[5] == Prologue(arch)[5];
        assert Run(p, 4, data.nr, data) == Run(p, if data.nr >= X32_SYSCALL_BIT then 5 else 6, data.nr, data);
      }
    }
  }

  /**
   The whole compiler: exactly the compilable records give a filter, and its bytes, read back the
   way the kernel reads them, decide the policy on every system call. The instruction count the
   installer computes from the byte length is the length of the program and fits its 16-bit field.
   */
  lemma FilterDecidesPolicy(arch: Arch, data: SyscallData)
    requires data.Valid()
    ensures Encode(Program(arch)).Success? <==> Compilable(arch)
    ensures Compilable(arch) ==>
              var bytes := Encode(Program(arch)).value;
              && Run(Decode(bytes), 0, 0, data) == Return(Policy(arch, data))
              && |bytes| % 8 == 0 && |bytes| / 8 == |Program(arch)| < 0x1_0000
  {
    EncodableIffCompilable(arch);
    EncodeDecode(Program(arch));
    ProgramDecidesPolicy(arch, data);
    Layout(arch);
  }

  /** What the two records decide, number by number: sockets of domain 1 alone, and six calls refused. */
  lemma RecordsDecide(data: SyscallData)
    requires data.Valid()
    ensures var verdict := if data.args[0] % 0x1_0000_0000 == 1 then 0x7FFF_0000 else 0x0005_0001;
            && "x86_64" in ARCHES && "aarch64" in ARCHES && |ARCHES| == 2
            && Run(Program(ARCHES["x86_64"]), 0, 0, data) ==
               Return(if data.arch != 0xC000_003E || data.nr >= 0x4000_0000 then 0x8000_0000
                      else if data.nr == 41 || data.nr == 53 then verdict
                      else if data.nr in {425, 426, 427, 101, 310, 311} then 0x0005_0001
                      else 0x7FFF_0000)
            && Run(Program(ARCHES["aarch64"]), 0, 0, data) ==
               Return(if data.arch != 0xC000_00B7 then 0x8000_0000
                      else if data.nr == 198 || data.nr == 199 then verdict
                      else if data.nr in {425, 426, 427, 117, 270, 271} then 0x0005_0001
                      else 0x7FFF_0000)
  {
    hide Run, Program;
    ProgramDecidesPolicy(ARCHES["x86_64"], data);
    ProgramDecidesPolicy(ARCHES["aarch64"], data);
  }
}
