/** The seccomp filter program (crates/trashd-seccomp/src/filter.rs).
  *
  * Three sections are laid one after the other: a cookie proof, an exemption
  * for the preload's own source retirement, and the trap table.  Each of the
  * first two must hand every mismatch to the section after it, through jump
  * offsets that are counted by hand or patched in a loop.  The whole program is
  * proved equal to a decision table on every system call.
  */
module Filter {

  import opened Wrappers
  import opened Bytes

  const WORD := 0x1_0000_0000

  datatype Machine = X86_64 | Aarch64

  /** struct seccomp_data. */
  datatype Data = Data(nr: u32, arch: u32, ip: u64, args: seq<u64>)

  predicate Valid(d: Data) {
    |d.args| == 6
  }

  // ---------------------------------------------------------------- constants

  const OFFSET_NR: u32 := 0
  const OFFSET_ARCH: u32 := 4
  const OFFSET_IP: u32 := 8
  const X32_SYSCALL_BIT: u32 := 0x4000_0000
  const SYS_LANDLOCK_RESTRICT_SELF: u32 := 446
  const SYS_IO_URING_SETUP: u32 := 425
  const SYS_IO_URING_ENTER: u32 := 426
  const SYS_IO_URING_REGISTER: u32 := 427
  const RET_ALLOW: u32 := 0x7FFF_0000
  const RET_USER_NOTIF: u32 := 0x7FC0_0000
  const RET_ERRNO: u32 := 0x0005_0000
  const RET_ENOSYS: u32 := 0x0005_0000 + 38
  const PROOF_ERRNO: u32 := 4092
  const RETIRE_MARK: u64 := 0x7472_6173_6864_726d
  const RETIRE_GUARD: u64 := 0x736f_7572_6365_6f6b

  function NativeArch(m: Machine): u32 {
    if m.X86_64? then 0xC000_003E else 0xC000_00B7
  }

  function SysGetpid(m: Machine): u32 {
    if m.X86_64? then 39 else 172
  }

  /** unlink on x86_64, unlinkat on aarch64. */
  function SysRetire(m: Machine): u32 {
    if m.X86_64? then 87 else 35
  }

  // ---------------------------------------------------------------- instructions

  datatype Op = LdAbs | JeqK | JgeK | JeqX | Tax | RetK

  datatype Insn = Insn(op: Op, jt: u8, jf: u8, k: u32)

  function Stmt(op: Op, k: u32): Insn {
    Insn(op, 0, 0, k)
  }

  function Jump(op: Op, k: u32, jt: u8, jf: u8): Insn {
    Insn(op, jt, jf, k)
  }

  /** `as u8`. */
  function Low8(x: int): u8 {
    x % 0x100
  }

  function Lo(x: u64): u32 {
    x % WORD
  }

  function Hi(x: u64): u32 {
    x / WORD
  }

  /** The 32-bit word an absolute load reads; None where the interpreter has no such word. */
  function Word(d: Data, offset: u32): (r: Option<u32>)
    requires Valid(d)
  {
    if offset == 0 then Some(d.nr)
    else if offset == 4 then Some(d.arch)
    else if offset == 8 then Some(Lo(d.ip))
    else if offset == 12 then Some(Hi(d.ip))
    else if 16 <= offset < 64 && offset % 4 == 0 then
      var arg := d.args[(offset - 16) / 8];
      Some(if offset % 8 == 0 then Lo(arg) else Hi(arg))
    else None
  }

  /** How a run ends: with a verdict, or by leaving the program or its input. */
  datatype Outcome = Verdict(value: u32) | Fault

  function Run(prog: seq<Insn>, d: Data, pc: nat, acc: u32, index: u32): Outcome
    requires Valid(d)
    decreases |prog| - pc
  {
    if pc >= |prog| then Fault
    else
      var ins := prog[pc];
      match ins.op
      case LdAbs =>
        (match Word(d, ins.k)
         case Some(word) => Run(prog, d, pc + 1, word, index)
         case None => Fault)
      case JeqK => Run(prog, d, pc + 1 + (if acc == ins.k then ins.jt else ins.jf), acc, index)
      case JgeK => Run(prog, d, pc + 1 + (if acc >= ins.k then ins.jt else ins.jf), acc, index)
      case JeqX => Run(prog, d, pc + 1 + (if acc == index then ins.jt else ins.jf), acc, index)
      case Tax => Run(prog, d, pc + 1, acc, acc)
      case RetK => Verdict(ins.k)
  }

  /** The interpreter as a loop; every iteration moves forward, so it ends. */
  method Interpret(prog: seq<Insn>, d: Data) returns (r: Outcome)
    requires Valid(d)
    ensures r == Run(prog, d, 0, 0, 0)
  {
    var pc: nat := 0;
    var acc: u32 := 0;
    var index: u32 := 0;
    while pc < |prog|
      invariant Run(prog, d, 0, 0, 0) == Run(prog, d, pc, acc, index)
      decreases |prog| - pc
    {
      var ins := prog[pc];
      match ins.op {
        case LdAbs =>
          var word := Word(d, ins.k);
          if word.None? { return Fault; }
          acc := word.value;
          pc := pc + 1;
        case JeqK =>
          pc := pc + 1 + if acc == ins.k then ins.jt else ins.jf;
        case JgeK =>
          pc := pc + 1 + if acc >= ins.k then ins.jt else ins.jf;
        case Tax =>
          index := acc;
          pc := pc + 1;
        case JeqX =>
          pc := pc + 1 + if acc == index then ins.jt else ins.jf;
        case RetK =>
          return Verdict(ins.k);
      }
    }
    return Fault;
  }

  // ---------------------------------------------------------------- the program

  /** "This word of the call has this value." */
  datatype Test = Test(offset: u32, value: u32)

  /** "These two words of the call are equal." */
  datatype Same = Same(left: u32, right: u32)

  function RetirementTests(m: Machine): seq<Test> {
    [ Test(OFFSET_ARCH, NativeArch(m)),
      Test(OFFSET_NR, SysRetire(m)),
      Test(32, 0),
      Test(40, Lo(RETIRE_MARK)), Test(44, Hi(RETIRE_MARK)),
      Test(48, Lo(RETIRE_GUARD)), Test(52, Hi(RETIRE_GUARD)) ]
  }

  const RETIREMENT_SITES: seq<Same> := [Same(OFFSET_IP, 56), Same(OFFSET_IP + 4, 60)]

  function TestCode(tests: seq<Test>): (code: seq<Insn>)
    ensures |code| == 2 * |tests|
  {
    if tests == [] then []
    else [Stmt(LdAbs, tests[0].offset), Jump(JeqK, tests[0].value, 0, 0)] + TestCode(tests[1..])
  }

  function SameCode(sites: seq<Same>): (code: seq<Insn>)
    ensures |code| == 4 * |sites|
  {
    if sites == [] then []
    else
      [Stmt(LdAbs, sites[0].left), Stmt(Tax, 0), Stmt(LdAbs, sites[0].right), Jump(JeqX, 0, 0, 0)]
      + SameCode(sites[1..])
  }

  predicate IsJeq(ins: Insn) {
    ins.op.JeqK? || ins.op.JeqX?
  }

  /** Every equality jump leaves to just past the program when it fails. */
  function PatchedInsn(program: seq<Insn>, i: nat): Insn
    requires i < |program|
  {
    if IsJeq(program[i]) then program[i].(jf := Low8(|program| - i - 1)) else program[i]
  }

  function Patched(program: seq<Insn>): (r: seq<Insn>)
    ensures |r| == |program|
  {
    seq(|program|, i requires 0 <= i < |program| => PatchedInsn(program, i))
  }

  function RetirementCode(m: Machine): seq<Insn> {
    TestCode(RetirementTests(m)) + SameCode(RETIREMENT_SITES) + [Stmt(RetK, RET_ALLOW)]
  }

  function RetirementSection(m: Machine): seq<Insn> {
    Patched(RetirementCode(m))
  }

  lemma TestCodeAppend(a: seq<Test>, t: Test)
    ensures TestCode(a + [t]) == TestCode(a) + [Stmt(LdAbs, t.offset), Jump(JeqK, t.value, 0, 0)]
  {
    if a == [] {
      assert a + [t] == [t];
    } else {
      assert (a + [t])[1..] == a[1..] + [t];
      TestCodeAppend(a[1..], t);
    }
  }

  lemma SameCodeAppend(a: seq<Same>, s: Same)
    ensures SameCode(a + [s]) == SameCode(a) +
            [Stmt(LdAbs, s.left), Stmt(Tax, 0), Stmt(LdAbs, s.right), Jump(JeqX, 0, 0, 0)]
  {
    if a == [] {
      assert a + [s] == [s];
    } else {
      assert (a + [s])[1..] == a[1..] + [s];
      SameCodeAppend(a[1..], s);
    }
  }

  /** build_retirement_filter: push the tests, then patch every conditional jump. */
  method BuildRetirementFilter(m: Machine) returns (program: seq<Insn>)
    ensures program == RetirementSection(m)
  {
    program := [];
    var tests := RetirementTests(m);
    for i := 0 to |tests|
      invariant program == TestCode(tests[..i])
    {
      assert tests[..i + 1] == tests[..i] + [tests[i]];
      TestCodeAppend(tests[..i], tests[i]);
      program := program + [Stmt(LdAbs, tests[i].offset)];
      program := program + [Jump(JeqK, tests[i].value, 0, 0)];
    }
    assert tests[..|tests|] == tests;
    var sites := RETIREMENT_SITES;
    for i := 0 to |sites|
      invariant program == TestCode(tests) + SameCode(sites[..i])
    {
      assert sites[..i + 1] == sites[..i] + [sites[i]];
      SameCodeAppend(sites[..i], sites[i]);
      program := program + [Stmt(LdAbs, sites[i].left)];
      program := program + [Stmt(Tax, 0)];
      program := program + [Stmt(LdAbs, sites[i].right)];
      program := program + [Jump(JeqX, 0, 0, 0)];
    }
    assert sites[..|sites|] == sites;
    program := program + [Stmt(RetK, RET_ALLOW)];
    var end := |program|;
    ghost var unpatched := program;
    for index := 0 to end
      invariant |program| == end
      invariant forall i :: 0 <= i < index ==> program[i] == PatchedInsn(unpatched, i)
      invariant forall i :: index <= i < end ==> program[i] == unpatched[i]
    {
      if IsJeq(program[index]) {
        program := program[index := program[index].(jf := Low8(end - index - 1))];
      }
    }
  }

  function ProofTests(m: Machine, cookie: seq<u32>): seq<Test>
    requires |cookie| == 4
  {
    [ Test(OFFSET_ARCH, NativeArch(m)), Test(OFFSET_NR, SysGetpid(m)),
      Test(16, cookie[0]), Test(24, cookie[1]), Test(32, cookie[2]), Test(40, cookie[3]) ]
  }

  function ProofSection(m: Machine, cookie: seq<u32>): seq<Insn>
    requires |cookie| == 4
  {
    [ Stmt(LdAbs, OFFSET_ARCH), Jump(JeqK, NativeArch(m), 0, 11),
      Stmt(LdAbs, OFFSET_NR), Jump(JeqK, SysGetpid(m), 0, 9),
      Stmt(LdAbs, 16), Jump(JeqK, cookie[0], 0, 7),
      Stmt(LdAbs, 24), Jump(JeqK, cookie[1], 0, 5),
      Stmt(LdAbs, 32), Jump(JeqK, cookie[2], 0, 3),
      Stmt(LdAbs, 40), Jump(JeqK, cookie[3], 0, 1),
      Stmt(RetK, RET_ERRNO + PROOF_ERRNO) ]
  }

  function BaseSection(m: Machine): seq<Insn> {
    match m
    case X86_64 =>
      [ Stmt(LdAbs, OFFSET_ARCH),
        Jump(JeqK, 0xC000_003E, 0, 11),
        Stmt(LdAbs, OFFSET_NR),
        Jump(JgeK, X32_SYSCALL_BIT, 9, 0),
        Jump(JeqK, 87, 7, 0),
        Jump(JeqK, 263, 6, 0),
        Jump(JeqK, 84, 5, 0),
        Jump(JeqK, SYS_LANDLOCK_RESTRICT_SELF, 4, 0),
        Jump(JeqK, SYS_IO_URING_SETUP, 4, 0),
        Jump(JeqK, SYS_IO_URING_ENTER, 3, 0),
        Jump(JeqK, SYS_IO_URING_REGISTER, 2, 0),
        Stmt(RetK, RET_ALLOW),
        Stmt(RetK, RET_USER_NOTIF),
        Stmt(RetK, RET_ENOSYS) ]
    case Aarch64 =>
      [ Stmt(LdAbs, OFFSET_ARCH),
        Jump(JeqK, 0xC000_00B7, 0, 8),
        Stmt(LdAbs, OFFSET_NR),
        Jump(JeqK, 35, 5, 0),
        Jump(JeqK, SYS_LANDLOCK_RESTRICT_SELF, 4, 0),
        Jump(JeqK, SYS_IO_URING_SETUP, 4, 0),
        Jump(JeqK, SYS_IO_URING_ENTER, 3, 0),
        Jump(JeqK, SYS_IO_URING_REGISTER, 2, 0),
        Stmt(RetK, RET_ALLOW),
        Stmt(RetK, RET_USER_NOTIF),
        Stmt(RetK, RET_ENOSYS) ]
  }

  function Program(m: Machine, cookie: seq<u32>): seq<Insn>
    requires |cookie| == 4
  {
    ProofSection(m, cookie) + RetirementSection(m) + BaseSection(m)
  }

  /** build_filter: the cookie words are pushed in a loop with shrinking jump offsets. */
  method BuildFilter(m: Machine, cookie: seq<u32>) returns (proof: seq<Insn>)
    requires |cookie| == 4
    ensures proof == Program(m, cookie)
  {
    proof := [ Stmt(LdAbs, OFFSET_ARCH), Jump(JeqK, NativeArch(m), 0, 11),
               Stmt(LdAbs, OFFSET_NR), Jump(JeqK, SysGetpid(m), 0, 9) ];
    for i := 0 to 4
      invariant proof == ProofSection(m, cookie)[..4 + 2 * i]
    {
      proof := proof + [Stmt(LdAbs, 16 + i * 8)];
      proof := proof + [Jump(JeqK, cookie[i], 0, Low8(7 - i * 2))];
    }
    proof := proof + [Stmt(RetK, RET_ERRNO + PROOF_ERRNO)];
    assert proof == ProofSection(m, cookie);
    var retirement := BuildRetirementFilter(m);
    proof := proof + retirement;
    proof := proof + BaseSection(m);
  }

  // ---------------------------------------------------------------- sections in place

  /** The program, from `at` on, contains the section. */
  predicate PlacedAt(prog: seq<Insn>, at: nat, section: seq<Insn>) {
    at + |section| <= |prog| && prog[at..at + |section|] == section
  }

  lemma PlacedInsn(prog: seq<Insn>, at: nat, section: seq<Insn>, i: nat)
    requires PlacedAt(prog, at, section) && i < |section|
    ensures prog[at + i] == section[i]
  {
    assert prog[at..at + |section|][i] == section[i];
  }

  predicate Holds(d: Data, t: Test)
    requires Valid(d)
  {
    Word(d, t.offset) == Some(t.value)
  }

  /** Code for one test at `at`: fall through when it holds, else go to `miss`. */
  predicate TestAt(prog: seq<Insn>, at: nat, t: Test, miss: nat) {
    && at + 2 <= |prog|
    && prog[at] == Stmt(LdAbs, t.offset)
    && prog[at + 1].op == JeqK && prog[at + 1].k == t.value && prog[at + 1].jt == 0
    && at + 2 + prog[at + 1].jf == miss
  }

  predicate TestsAt(prog: seq<Insn>, at: nat, tests: seq<Test>, miss: nat) {
    forall j :: 0 <= j < |tests| ==> TestAt(prog, at + 2 * j, tests[j], miss)
  }

  predicate AllHold(d: Data, tests: seq<Test>)
    requires Valid(d)
  {
    forall j :: 0 <= j < |tests| ==> Holds(d, tests[j])
  }

  /** Whatever the registers hold, running from `pc` gives `outcome`. */
  ghost predicate Leads(prog: seq<Insn>, d: Data, pc: nat, outcome: Outcome)
    requires Valid(d)
  {
    forall acc: u32, index: u32 :: Run(prog, d, pc, acc, index) == outcome
  }

  lemma TestStep(prog: seq<Insn>, d: Data, at: nat, t: Test, miss: nat, hit: Outcome, missed: Outcome)
    requires Valid(d) && TestAt(prog, at, t, miss) && Word(d, t.offset).Some?
    requires Leads(prog, d, at + 2, hit) && Leads(prog, d, miss, missed)
    ensures Leads(prog, d, at, if Holds(d, t) then hit else missed)
  {
    forall acc: u32, index: u32
      ensures Run(prog, d, at, acc, index) == if Holds(d, t) then hit else missed
    {
      var word := Word(d, t.offset).value;
      var next := if Holds(d, t) then at + 2 else miss;
      assert Run(prog, d, at, acc, index) == Run(prog, d, at + 1, word, index);
      assert Run(prog, d, at + 1, word, index) == Run(prog, d, next, word, index);
    }
  }

  /** A chain of tests falls into its end when all hold, and else to where failures lead. */
  lemma {:induction false} TestChain(prog: seq<Insn>, d: Data, at: nat, tests: seq<Test>, miss: nat,
                                     hit: Outcome, missed: Outcome)
    requires Valid(d) && TestsAt(prog, at, tests, miss)
    requires forall j :: 0 <= j < |tests| ==> Word(d, tests[j].offset).Some?
    requires Leads(prog, d, at + 2 * |tests|, hit) && Leads(prog, d, miss, missed)
    ensures Leads(prog, d, at, if AllHold(d, tests) then hit else missed)
    decreases |tests|
  {
    if tests != [] {
      var rest := tests[1..];
      forall j | 0 <= j < |rest| ensures TestAt(prog, at + 2 + 2 * j, rest[j], miss) {
        assert TestAt(prog, at + 2 * (j + 1), tests[j + 1], miss);
      }
      TestChain(prog, d, at + 2, rest, miss, hit, missed);
      assert TestAt(prog, at + 2 * 0, tests[0], miss);
      TestStep(prog, d, at, tests[0], miss, if AllHold(d, rest) then hit else missed, missed);
      assert AllHold(d, tests) <==> Holds(d, tests[0]) && AllHold(d, rest) by {
        if Holds(d, tests[0]) && AllHold(d, rest) {
          forall j | 0 <= j < |tests| ensures Holds(d, tests[j]) {
            if j > 0 { assert tests[j] == rest[j - 1]; }
          }
        }
        if AllHold(d, tests) {
          forall j | 0 <= j < |rest| ensures Holds(d, rest[j]) { assert rest[j] == tests[j + 1]; }
        }
      }
    }
  }

  predicate SameAt(prog: seq<Insn>, at: nat, site: Same, miss: nat) {
    && at + 4 <= |prog|
    && prog[at] == Stmt(LdAbs, site.left) && prog[at + 1] == Stmt(Tax, 0)
    && prog[at + 2] == Stmt(LdAbs, site.right)
    && prog[at + 3].op == JeqX && prog[at + 3].jt == 0 && at + 4 + prog[at + 3].jf == miss
  }

  lemma SameStep(prog: seq<Insn>, d: Data, at: nat, site: Same, miss: nat, hit: Outcome, missed: Outcome)
    requires Valid(d) && SameAt(prog, at, site, miss)
    requires Word(d, site.left).Some? && Word(d, site.right).Some?
    requires Leads(prog, d, at + 4, hit) && Leads(prog, d, miss, missed)
    ensures Leads(prog, d, at, if Word(d, site.left) == Word(d, site.right) then hit else missed)
  {
    forall acc: u32, index: u32
      ensures Run(prog, d, at, acc, index)
              == if Word(d, site.left) == Word(d, site.right) then hit else missed
    {
      var left, right := Word(d, site.left).value, Word(d, site.right).value;
      assert Run(prog, d, at, acc, index) == Run(prog, d, at + 1, left, index);
      assert Run(prog, d, at + 1, left, index) == Run(prog, d, at + 2, left, left);
      assert Run(prog, d, at + 2, left, left) == Run(prog, d, at + 3, right, left);
      var next := if left == right then at + 4 else miss;
      assert Run(prog, d, at + 3, right, left) == Run(prog, d, next, right, left);
    }
  }

  predicate JumpsTo(prog: seq<Insn>, at: nat, value: u32, target: nat) {
    && at < |prog|
    && prog[at].op == JeqK && prog[at].k == value && prog[at].jf == 0
    && at + 1 + prog[at].jt == target
  }

  /** A row of equality jumps on one loaded word, no value tested twice. */
  predicate TableAt(prog: seq<Insn>, at: nat, values: seq<u32>, targets: seq<nat>) {
    && |values| == |targets|
    && (forall j :: 0 <= j < |values| ==> JumpsTo(prog, at + j, values[j], targets[j]))
    && forall i, j :: 0 <= i < j < |values| ==> values[i] != values[j]
  }

  lemma {:induction false} JumpTable(prog: seq<Insn>, d: Data, at: nat, values: seq<u32>, targets: seq<nat>,
                                     acc: u32, index: u32)
    requires Valid(d) && TableAt(prog, at, values, targets)
    ensures acc !in values ==> Run(prog, d, at, acc, index) == Run(prog, d, at + |values|, acc, index)
    ensures forall j :: 0 <= j < |values| && values[j] == acc ==>
              Run(prog, d, at, acc, index) == Run(prog, d, targets[j], acc, index)
    decreases |values|
  {
    if values != [] {
      assert JumpsTo(prog, at + 0, values[0], targets[0]);
      if acc != values[0] {
        var vs, ts := values[1..], targets[1..];
        forall j | 0 <= j < |vs| ensures JumpsTo(prog, at + 1 + j, vs[j], ts[j]) {
          assert JumpsTo(prog, at + (j + 1), values[j + 1], targets[j + 1]);
        }
        JumpTable(prog, d, at + 1, vs, ts, acc, index);
        assert acc in values <==> acc in vs;
        forall j | 0 <= j < |values| && values[j] == acc
          ensures Run(prog, d, at, acc, index) == Run(prog, d, targets[j], acc, index)
        {
          assert vs[j - 1] == acc;
        }
      }
    }
  }

  // ---------------------------------------------------------------- the decision table

  predicate IsProof(m: Machine, cookie: seq<u32>, d: Data)
    requires |cookie| == 4 && Valid(d)
  {
    && d.arch == NativeArch(m) && d.nr == SysGetpid(m)
    && forall i :: 0 <= i < 4 ==> Lo(d.args[i]) == cookie[i]
  }

  /** The preload's own unlink of a copied source: both tags, no flags, and the tagged
    * argument names the very instruction that made the call. */
  predicate IsRetirement(m: Machine, d: Data)
    requires Valid(d)
  {
    && d.arch == NativeArch(m) && d.nr == SysRetire(m)
    && Lo(d.args[2]) == 0
    && d.args[3] == RETIRE_MARK && d.args[4] == RETIRE_GUARD && d.args[5] == d.ip
  }

  function Trapped(m: Machine): set<u32> {
    if m.X86_64? then {87, 263, 84, SYS_LANDLOCK_RESTRICT_SELF} else {35, SYS_LANDLOCK_RESTRICT_SELF}
  }

  const IO_URING: set<u32> := {SYS_IO_URING_SETUP, SYS_IO_URING_ENTER, SYS_IO_URING_REGISTER}

  function BaseDecision(m: Machine, d: Data): u32 {
    if d.arch != NativeArch(m) then RET_ENOSYS
    else if m.X86_64? && d.nr >= X32_SYSCALL_BIT then RET_ENOSYS
    else if d.nr in Trapped(m) then RET_USER_NOTIF
    else if d.nr in IO_URING then RET_ENOSYS
    else RET_ALLOW
  }

  function Decision(m: Machine, cookie: seq<u32>, d: Data): u32
    requires |cookie| == 4 && Valid(d)
  {
    if IsProof(m, cookie, d) then RET_ERRNO + PROOF_ERRNO
    else if IsRetirement(m, d) then RET_ALLOW
    else BaseDecision(m, d)
  }

  // ---------------------------------------------------------------- the sections decide

  const TABLE_X86: seq<u32> := [87, 263, 84, 446, 425, 426, 427]
  const TABLE_ARM: seq<u32> := [35, 446, 425, 426, 427]

  lemma TableX86(prog: seq<Insn>, at: nat)
    requires PlacedAt(prog, at, BaseSection(X86_64))
    ensures TableAt(prog, at + 4, TABLE_X86, [at + 12, at + 12, at + 12, at + 12, at + 13, at + 13, at + 13])
  {
    var section := BaseSection(X86_64);
    PlacedInsn(prog, at, section, 4);
    PlacedInsn(prog, at, section, 5);
    PlacedInsn(prog, at, section, 6);
    PlacedInsn(prog, at, section, 7);
    PlacedInsn(prog, at, section, 8);
    PlacedInsn(prog, at, section, 9);
    PlacedInsn(prog, at, section, 10);
  }

  lemma TableArm(prog: seq<Insn>, at: nat)
    requires PlacedAt(prog, at, BaseSection(Aarch64))
    ensures TableAt(prog, at + 3, TABLE_ARM, [at + 9, at + 9, at + 10, at + 10, at + 10])
  {
    var section := BaseSection(Aarch64);
    PlacedInsn(prog, at, section, 3);
    PlacedInsn(prog, at, section, 4);
    PlacedInsn(prog, at, section, 5);
    PlacedInsn(prog, at, section, 6);
    PlacedInsn(prog, at, section, 7);
  }

  /** The syscall row of the trap table, once the number is loaded. */
  lemma TrapTableDecides(m: Machine, prog: seq<Insn>, d: Data, at: nat, index: u32)
    requires Valid(d) && PlacedAt(prog, at, BaseSection(m))
    ensures Run(prog, d, at + (if m.X86_64? then 4 else 3), d.nr, index) == Verdict(
              if d.nr in Trapped(m) then RET_USER_NOTIF
              else if d.nr in IO_URING then RET_ENOSYS else RET_ALLOW)
  {
    var section := BaseSection(m);
    var n, nr := |section|, d.nr;
    PlacedInsn(prog, at, section, n - 3);
    PlacedInsn(prog, at, section, n - 2);
    PlacedInsn(prog, at, section, n - 1);
    if m.X86_64? {
      TableX86(prog, at);
      JumpTable(prog, d, at + 4, TABLE_X86, [at + 12, at + 12, at + 12, at + 12, at + 13, at + 13, at + 13], nr, index);
      assert nr in TABLE_X86 <==> nr == 87 || nr == 263 || nr == 84 || nr == 446 || nr == 425 || nr == 426 || nr == 427;
      assert TABLE_X86[0] == 87 && TABLE_X86[1] == 263 && TABLE_X86[2] == 84 && TABLE_X86[3] == 446;
      assert TABLE_X86[4] == 425 && TABLE_X86[5] == 426 && TABLE_X86[6] == 427;
    } else {
      TableArm(prog, at);
      JumpTable(prog, d, at + 3, TABLE_ARM, [at + 9, at + 9, at + 10, at + 10, at + 10], nr, index);
      assert nr in TABLE_ARM <==> nr == 35 || nr == 446 || nr == 425 || nr == 426 || nr == 427;
      assert TABLE_ARM[0] == 35 && TABLE_ARM[1] == 446;
      assert TABLE_ARM[2] == 425 && TABLE_ARM[3] == 426 && TABLE_ARM[4] == 427;
    }
  }

  lemma BaseSectionDecides(m: Machine, prog: seq<Insn>, d: Data, at: nat)
    requires Valid(d) && PlacedAt(prog, at, BaseSection(m))
    ensures Leads(prog, d, at, Verdict(BaseDecision(m, d)))
  {
    var section := BaseSection(m);
    var enosys := at + |section| - 1;
    PlacedInsn(prog, at, section, 0);
    PlacedInsn(prog, at, section, 1);
    PlacedInsn(prog, at, section, 2);
    PlacedInsn(prog, at, section, 3);
    PlacedInsn(prog, at, section, |section| - 1);
    forall acc: u32, index: u32
      ensures Run(prog, d, at, acc, index) == Verdict(BaseDecision(m, d))
    {
      assert Run(prog, d, at, acc, index) == Run(prog, d, at + 1, d.arch, index);
      if d.arch == NativeArch(m) {
        assert Run(prog, d, at + 1, d.arch, index) == Run(prog, d, at + 2, d.arch, index);
        assert Run(prog, d, at + 2, d.arch, index) == Run(prog, d, at + 3, d.nr, index);
        TrapTableDecides(m, prog, d, at, index);
        if m.X86_64? && d.nr >= X32_SYSCALL_BIT {
          assert Run(prog, d, at + 3, d.nr, index) == Run(prog, d, enosys, d.nr, index);
        } else if m.X86_64? {
          assert Run(prog, d, at + 3, d.nr, index) == Run(prog, d, at + 4, d.nr, index);
        }
      } else {
        assert Run(prog, d, at + 1, d.arch, index) == Run(prog, d, enosys, d.arch, index);
      }
    }
  }

  /** No patched offset is truncated: each lands exactly on the section's end. */
  lemma PatchedJumpsFit(m: Machine, i: nat)
    requires i < |RetirementSection(m)| && IsJeq(RetirementSection(m)[i])
    ensures i + 1 + RetirementSection(m)[i].jf == |RetirementSection(m)| == 23
  {
    assert |RetirementCode(m)| == 23;
  }

  lemma {:induction false} TestCodeAt(tests: seq<Test>, j: nat)
    requires j < |tests|
    ensures TestCode(tests)[2 * j] == Stmt(LdAbs, tests[j].offset)
    ensures TestCode(tests)[2 * j + 1] == Jump(JeqK, tests[j].value, 0, 0)
  {
    if j > 0 {
      TestCodeAt(tests[1..], j - 1);
    }
  }

  lemma RetirementInsns(m: Machine, prog: seq<Insn>, at: nat)
    requires PlacedAt(prog, at, RetirementSection(m))
    ensures |RetirementCode(m)| == 23 && |prog| >= at + 23
    ensures forall i :: 0 <= i < 23 ==> prog[at + i] == PatchedInsn(RetirementCode(m), i)
  {
    assert |RetirementCode(m)| == 23;
    forall i | 0 <= i < 23 ensures prog[at + i] == PatchedInsn(RetirementCode(m), i) {
      PlacedInsn(prog, at, RetirementSection(m), i);
    }
  }

  lemma RetirementTestLayout(m: Machine, prog: seq<Insn>, at: nat)
    requires PlacedAt(prog, at, RetirementSection(m))
    ensures TestsAt(prog, at, RetirementTests(m), at + 23)
  {
    var code, tests := RetirementCode(m), RetirementTests(m);
    RetirementInsns(m, prog, at);
    forall j | 0 <= j < |tests|
      ensures prog[at + 2 * j] == Stmt(LdAbs, tests[j].offset)
      ensures prog[at + 2 * j + 1] == Jump(JeqK, tests[j].value, 0, 22 - (2 * j + 1))
    {
      TestCodeAt(tests, j);
      assert prog[at + (2 * j)] == PatchedInsn(code, 2 * j);
      assert prog[at + (2 * j + 1)] == PatchedInsn(code, 2 * j + 1);
    }
  }

  /** The call-site part of the section, before its jumps are patched. */
  lemma SiteInsns(m: Machine)
    ensures var code := RetirementCode(m);
            && |code| == 23
            && code[14] == Stmt(LdAbs, RETIREMENT_SITES[0].left) && code[15] == Stmt(Tax, 0)
            && code[16] == Stmt(LdAbs, RETIREMENT_SITES[0].right) && code[17] == Jump(JeqX, 0, 0, 0)
            && code[18] == Stmt(LdAbs, RETIREMENT_SITES[1].left) && code[19] == Stmt(Tax, 0)
            && code[20] == Stmt(LdAbs, RETIREMENT_SITES[1].right) && code[21] == Jump(JeqX, 0, 0, 0)
            && code[22] == Stmt(RetK, RET_ALLOW)
  {
    var code, sites := RetirementCode(m), SameCode(RETIREMENT_SITES);
    assert |code| == 23;
    assert sites[4..] == SameCode(RETIREMENT_SITES[1..]);
    forall i | 14 <= i < 22 ensures code[i] == sites[i - 14] {}
  }

  lemma RetirementLayout(m: Machine, prog: seq<Insn>, at: nat)
    requires PlacedAt(prog, at, RetirementSection(m))
    ensures |prog| >= at + 23
    ensures SameAt(prog, at + 14, RETIREMENT_SITES[0], at + 23)
    ensures SameAt(prog, at + 18, RETIREMENT_SITES[1], at + 23)
    ensures prog[at + 22] == Stmt(RetK, RET_ALLOW)
  {
    hide RetirementCode, SameCode;
    var code := RetirementCode(m);
    RetirementInsns(m, prog, at);
    SiteInsns(m);
    assert prog[at + 14] == PatchedInsn(code, 14) && prog[at + 15] == PatchedInsn(code, 15);
    assert prog[at + 16] == PatchedInsn(code, 16) && prog[at + 17] == PatchedInsn(code, 17);
    assert prog[at + 18] == PatchedInsn(code, 18) && prog[at + 19] == PatchedInsn(code, 19);
    assert prog[at + 20] == PatchedInsn(code, 20) && prog[at + 21] == PatchedInsn(code, 21);
    assert prog[at + 22] == PatchedInsn(code, 22);
  }

  lemma RetirementTestsMean(m: Machine, d: Data)
    requires Valid(d)
    ensures AllHold(d, RetirementTests(m))
            && Word(d, OFFSET_IP) == Word(d, 56) && Word(d, OFFSET_IP + 4) == Word(d, 60)
            <==> IsRetirement(m, d)
  {
    var ts := RetirementTests(m);
    forall x: u64, y: u64 | Lo(x) == Lo(y) && Hi(x) == Hi(y) ensures x == y {
      assert x == WORD * Hi(x) + Lo(x);
    }
    if AllHold(d, ts) {
      assert Holds(d, ts[0]) && Holds(d, ts[1]) && Holds(d, ts[2]) && Holds(d, ts[3]);
      assert Holds(d, ts[4]) && Holds(d, ts[5]) && Holds(d, ts[6]);
    }
  }

  lemma RetirementSectionDecides(m: Machine, prog: seq<Insn>, d: Data, at: nat, next: Outcome)
    requires Valid(d) && PlacedAt(prog, at, RetirementSection(m)) && Leads(prog, d, at + 23, next)
    ensures Leads(prog, d, at, if IsRetirement(m, d) then Verdict(RET_ALLOW) else next)
  {
    RetirementTestLayout(m, prog, at);
    RetirementLayout(m, prog, at);
    assert Leads(prog, d, at + 22, Verdict(RET_ALLOW));
    SameStep(prog, d, at + 18, RETIREMENT_SITES[1], at + 23, Verdict(RET_ALLOW), next);
    var second := if Word(d, OFFSET_IP + 4) == Word(d, 60) then Verdict(RET_ALLOW) else next;
    SameStep(prog, d, at + 14, RETIREMENT_SITES[0], at + 23, second, next);
    var both := if Word(d, OFFSET_IP) == Word(d, 56) then second else next;
    TestChain(prog, d, at, RetirementTests(m), at + 23, both, next);
    RetirementTestsMean(m, d);
  }

  lemma ProofTestsMean(m: Machine, cookie: seq<u32>, d: Data)
    requires |cookie| == 4 && Valid(d)
    ensures AllHold(d, ProofTests(m, cookie)) <==> IsProof(m, cookie, d)
  {
    var ts := ProofTests(m, cookie);
    if AllHold(d, ts) {
      assert Holds(d, ts[0]) && Holds(d, ts[1]) && Holds(d, ts[2]) && Holds(d, ts[3]);
      assert Holds(d, ts[4]) && Holds(d, ts[5]);
    }
  }

  lemma ProofSectionDecides(m: Machine, cookie: seq<u32>, prog: seq<Insn>, d: Data, next: Outcome)
    requires |cookie| == 4 && Valid(d)
    requires PlacedAt(prog, 0, ProofSection(m, cookie)) && Leads(prog, d, 13, next)
    ensures Leads(prog, d, 0, if IsProof(m, cookie, d) then Verdict(RET_ERRNO + PROOF_ERRNO) else next)
  {
    var section := ProofSection(m, cookie);
    forall i | 0 <= i < 13 ensures prog[i] == section[i] {
      PlacedInsn(prog, 0, section, i);
    }
    assert TestsAt(prog, 0, ProofTests(m, cookie), 13);
    assert Leads(prog, d, 12, Verdict(RET_ERRNO + PROOF_ERRNO));
    TestChain(prog, d, 0, ProofTests(m, cookie), 13, Verdict(RET_ERRNO + PROOF_ERRNO), next);
    ProofTestsMean(m, cookie, d);
  }

  /** The whole program is the decision table: it never leaves its bounds or its input, and
    * gives the table's verdict on every call. */
  lemma ProgramIsDecisionTable(m: Machine, cookie: seq<u32>, d: Data)
    requires |cookie| == 4 && Valid(d)
    ensures Run(Program(m, cookie), d, 0, 0, 0) == Verdict(Decision(m, cookie, d))
  {
    var prog := Program(m, cookie);
    assert |RetirementCode(m)| == 23;
    assert PlacedAt(prog, 0, ProofSection(m, cookie));
    assert PlacedAt(prog, 13, RetirementSection(m));
    assert PlacedAt(prog, 36, BaseSection(m));
    BaseSectionDecides(m, prog, d, 36);
    var base := Verdict(BaseDecision(m, d));
    RetirementSectionDecides(m, prog, d, 13, base);
    var rest := if IsRetirement(m, d) then Verdict(RET_ALLOW) else base;
    ProofSectionDecides(m, cookie, prog, d, rest);
  }

  /** What the filter is for: no deletion by a native call escapes the supervisor unless it
    * carries both retirement tags and names its own call site. */
  lemma EveryDeletionIsSeen(m: Machine, cookie: seq<u32>, d: Data)
    requires |cookie| == 4 && Valid(d)
    requires d.arch == NativeArch(m) && d.nr in Trapped(m)
    ensures Run(Program(m, cookie), d, 0, 0, 0) == Verdict(RET_USER_NOTIF) <==> !IsRetirement(m, d)
  {
    ProgramIsDecisionTable(m, cookie, d);
  }
}
