/** Classic BPF as seccomp runs it, and the labelled code minijail assembles it from.

    A labelled instruction is an unconditional jump whose jt/jf bytes carry a mark:
    0xff/0xff for "jump to label k", 0xfe/0xfe for "label k is here". `Exec` gives meaning
    to a stretch of labelled code on its own, by saying how control leaves it, so that the
    meaning of a concatenation is the composition of the meanings (`ExecConcat`).
    `Run` is the kernel's machine, which knows nothing about marks. */
module BpfMachine {

  const TWO32: int := 0x1_0000_0000

  type Byte = b: int | 0 <= b < 0x100
  type Word = w: int | 0 <= w < 0x1_0000_0000
  type Quad = q: int | 0 <= q < 0x1_0000_0000_0000_0000

  function Lo(x: Quad): Word { x % 0x1_0000_0000 }
  function Hi(x: Quad): Word { x / 0x1_0000_0000 }

  // SECCOMP_RET_* values.
  const RET_KILL: Word := 0
  const RET_KILL_PROCESS: Word := 0x8000_0000
  const RET_TRAP: Word := 0x0003_0000
  const RET_ERRNO: Word := 0x0005_0000
  const RET_LOG: Word := 0x7ffc_0000
  const RET_ALLOW: Word := 0x7fff_0000

  // BPF_MAXINSNS
  const MAX_INSNS: nat := 4096

  datatype Opcode = LdAbs | LdMem | St | Ja | Jeq | Jgt | Jge | Jset | Ret

  datatype Instr = Instr(code: Opcode, k: Word, jt: Byte, jf: Byte)

  type Code = seq<Instr>

  function Stmt(code: Opcode, k: Word): Instr { Instr(code, k, 0, 0) }
  function JumpTo(id: Word): Instr { Instr(Ja, id, 0xff, 0xff) }
  function LabelAt(id: Word): Instr { Instr(Ja, id, 0xfe, 0xfe) }

  predicate IsJump(i: Instr) { i.code == Ja && i.jt == 0xff && i.jf == 0xff }
  predicate IsLabel(i: Instr) { i.code == Ja && i.jt == 0xfe && i.jf == 0xfe }
  predicate IsBranch(i: Instr) { i.code in {Jeq, Jgt, Jge, Jset} }

  /** struct seccomp_data: 64 bytes, read one aligned 32-bit word at a time. */
  datatype Data = Data(nr: Word, arch: Word, ip: Quad, args: seq<Quad>)

  type SeccompData = d: Data | |d.args| == 6 witness Data(0, 0, 0, [0, 0, 0, 0, 0, 0])

  const DATA_SIZE: int := 64

  predicate LoadOk(off: Word) { off % 4 == 0 && off < DATA_SIZE }

  function LoadWord(d: SeccompData, off: Word): Word
    requires LoadOk(off)
  {
    if off == 0 then d.nr
    else if off == 4 then d.arch
    else if off == 8 then Lo(d.ip)
    else if off == 12 then Hi(d.ip)
    else if off % 8 == 0 then Lo(d.args[(off - 16) / 8])
    else Hi(d.args[(off - 20) / 8])
  }

  /** Two ways to run code: on the data of one system call, or along an arbitrary path of
      its control-flow graph, every conditional jump going the way `path` says. */
  datatype Env = On(d: SeccompData) | AnyPath

  // `m` holds the scratch cells written so far; reading any other cell is an error.
  datatype State = State(a: Word, m: map<Word, Word>, path: seq<bool>)

  datatype Exit =
    | Out(skip: nat, s: State)   // fell out of the end, `skip` instructions beyond it
    | Goto(id: Word, s: State)   // jumped to a label the code does not contain
    | Halt(verdict: Word)        // executed RET
    | Broken                     // bad load, or a scratch cell read before it was written

  // Bit i of x: shift right i times, look at the low bit.
  predicate Bit(x: nat, i: nat) {
    if i == 0 then x % 2 == 1 else Bit(x / 2, i - 1)
  }

  // x & y != 0, bit by bit from the low end.
  predicate Meets(x: nat, y: nat) {
    x != 0 && y != 0 && ((x % 2 == 1 && y % 2 == 1) || Meets(x / 2, y / 2))
  }

  predicate Test(i: Instr, a: Word) {
    match i.code
    case Jeq => a == i.k
    case Jgt => a > i.k
    case Jge => a >= i.k
    case Jset => Meets(a, i.k)
    case _ => false
  }

  predicate Taken(i: Instr, s: State, e: Env) {
    if e.On? then Test(i, s.a) else s.path != [] && s.path[0]
  }

  function AfterBranch(s: State, e: Env): State {
    if e.AnyPath? && s.path != [] then s.(path := s.path[1..]) else s
  }

  function Loaded(e: Env, off: Word): Word
    requires LoadOk(off)
  {
    match e case On(d) => LoadWord(d, off) case AnyPath => 0
  }

  /** Index of the first label `id` at or after `from`; |c| when there is none. */
  function FindLabel(c: Code, id: Word, from: nat): (t: nat)
    requires from <= |c|
    ensures from <= t <= |c|
    decreases |c| - from
  {
    if from == |c| || c[from] == LabelAt(id) then from else FindLabel(c, id, from + 1)
  }

  lemma {:induction false} FindLabelIsFirst(c: Code, id: Word, from: nat)
    requires from <= |c|
    ensures var t := FindLabel(c, id, from);
            && (t < |c| ==> c[t] == LabelAt(id))
            && forall j :: from <= j < t ==> c[j] != LabelAt(id)
    decreases |c| - from
  {
    if from < |c| && c[from] != LabelAt(id) {
      FindLabelIsFirst(c, id, from + 1);
    }
  }

  datatype Move =
    | Fwd(n: nat, s: State)    // go on n instructions beyond the next one
    | Jump(id: Word, s: State)
    | Done(verdict: Word)
    | Bad

  /** One instruction of the kernel's machine. */
  function KernelStep(i: Instr, s: State, e: Env): Move {
    match i.code
    case Ret => Done(i.k)
    case Ja => Fwd(i.k, s)
    case LdAbs => if LoadOk(i.k) then Fwd(0, s.(a := Loaded(e, i.k))) else Bad
    case LdMem => if i.k in s.m then Fwd(0, s.(a := s.m[i.k])) else Bad
    case St => if i.k < 16 then Fwd(0, s.(m := s.m[i.k := s.a])) else Bad
    case _ => Fwd(if Taken(i, s, e) then i.jt else i.jf, AfterBranch(s, e))
  }

  /** One instruction of labelled code. */
  function Step(i: Instr, s: State, e: Env): Move {
    if IsJump(i) then Jump(i.k, s) else if IsLabel(i) then Fwd(0, s) else KernelStep(i, s, e)
  }

  /** Labelled code: run from `pc` until control leaves the code. */
  function Exec(c: Code, pc: nat, s: State, e: Env): Exit
    decreases |c| - pc
  {
    if pc >= |c| then Out(pc - |c|, s)
    else
      match Step(c[pc], s, e)
      case Fwd(n, s') => Exec(c, pc + 1 + n, s', e)
      case Jump(id, s') =>
        var t := FindLabel(c, id, pc + 1);
        if t < |c| then Exec(c, t, s', e) else Goto(id, s')
      case Done(v) => Halt(v)
      case Bad => Broken
  }

  /** The kernel's machine: falling off the end is an error. */
  function Run(p: Code, pc: nat, s: State, e: Env): Exit
    decreases |p| - pc
  {
    if pc >= |p| then Broken
    else
      match KernelStep(p[pc], s, e)
      case Fwd(n, s') => Run(p, pc + 1 + n, s', e)
      case Done(v) => Halt(v)
      case _ => Broken
  }

  const START: State := State(0, map[], [])

  /** What the kernel decides for one system call. */
  function Decide(p: Code, d: SeccompData): Exit {
    Run(p, 0, START, On(d))
  }

  // ----- composition -----

  /** Continue into `b` from the way the code before it was left. */
  function Resume(x: Exit, b: Code, e: Env): Exit {
    match x
    case Out(n, s) => Exec(b, n, s, e)
    case Goto(id, s) => var t := FindLabel(b, id, 0); if t < |b| then Exec(b, t, s, e) else x
    case _ => x
  }

  lemma {:induction false} FindLabelConcat(a: Code, b: Code, id: Word, from: nat)
    requires from <= |a|
    ensures var t := FindLabel(a, id, from);
            FindLabel(a + b, id, from) == if t < |a| then t else |a| + FindLabel(b, id, 0)
    decreases |a| - from
  {
    if from == |a| {
      FindLabelShift(a, b, id, 0);
    } else {
      assert (a + b)[from] == a[from];
      if a[from] != LabelAt(id) {
        FindLabelConcat(a, b, id, from + 1);
      }
    }
  }

  lemma {:induction false} ExecTail(a: Code, b: Code, pc: nat, s: State, e: Env)
    requires pc >= |a|
    ensures Exec(a + b, pc, s, e) == Exec(b, pc - |a|, s, e)
    decreases |a| + |b| - pc
  {
    hide Step, FindLabel;
    var c := a + b;
    if pc < |c| {
      assert c[pc] == b[pc - |a|];
      match Step(c[pc], s, e) {
        case Fwd(n, s') => ExecTail(a, b, pc + 1 + n, s', e);
        case Jump(id, s') =>
          FindLabelShift(a, b, id, pc + 1 - |a|);
          var t := FindLabel(c, id, pc + 1);
          if t < |c| {
            ExecTail(a, b, t, s', e);
          }
        case _ =>
      }
    }
  }

  lemma FindLabelShift(a: Code, b: Code, id: Word, from: nat)
    requires from <= |b|
    ensures FindLabel(a + b, id, |a| + from) == |a| + FindLabel(b, id, from)
    decreases |b| - from
  {
    if from < |b| {
      assert (a + b)[|a| + from] == b[from];
      if b[from] != LabelAt(id) {
        FindLabelShift(a, b, id, from + 1);
      }
    }
  }

  /** The meaning of a + b is the meaning of a followed by that of b. */
  lemma {:induction false} ExecConcat(a: Code, b: Code, pc: nat, s: State, e: Env)
    ensures Exec(a + b, pc, s, e) == Resume(Exec(a, pc, s, e), b, e)
    decreases |a| - pc, 1
  {
    hide Step;
    if pc >= |a| {
      ExecTail(a, b, pc, s, e);
    } else {
      var i := a[pc];
      assert (a + b)[pc] == i;
      var step := Step(i, s, e);
      if step.Fwd? {
        ExecConcat(a, b, pc + 1 + step.n, step.s, e);
      } else if step.Jump? {
        ExecConcatJump(a, b, pc, s, e, step.id, step.s);
      }
    }
  }

  lemma {:induction false} ExecConcatJump(a: Code, b: Code, pc: nat, s: State, e: Env, id: Word, s': State)
    requires pc < |a| && Step(a[pc], s, e) == Jump(id, s')
    ensures Exec(a + b, pc, s, e) == Resume(Exec(a, pc, s, e), b, e)
    decreases |a| - pc, 0
  {
    hide Step;
    assert (a + b)[pc] == a[pc];
    FindLabelConcat(a, b, id, pc + 1);
    var t, w := FindLabel(a, id, pc + 1), FindLabel(b, id, 0);
    if t < |a| {
      ExecConcat(a, b, t, s', e);
      assert Exec(a, pc, s, e) == Exec(a, t, s', e);
    } else if w < |b| {
      ExecTail(a, b, |a| + w, s', e);
      assert Exec(a, pc, s, e) == Goto(id, s');
    } else {
      assert Exec(a, pc, s, e) == Goto(id, s');
    }
  }

  // ----- code written into a buffer -----

  // `now` is `before` with `code` copied in at `index`.
  ghost predicate Copied(now: Code, before: Code, index: nat, code: Code) {
    && |now| == |before|
    && forall j :: 0 <= j < |now| ==>
         now[j] == if index <= j < index + |code| then code[j - index] else before[j]
  }

  lemma CopiedTwice(a: Code, b: Code, c: Code, index: nat, x: Code, y: Code)
    requires Copied(b, a, index, x) && Copied(c, b, index + |x|, y)
    ensures Copied(c, a, index, x + y)
  {
  }

  lemma CopiedOne(before: Code, index: nat, i: Instr)
    requires index < |before|
    ensures Copied(before[index := i], before, index, [i])
  {
  }

  lemma CopiedAll(before: Code, now: Code, code: Code)
    requires Copied(now, before, 0, code) && |code| == |before|
    ensures now == code
  {
  }

  // ----- what the kernel checks before it accepts a program -----

  predicate ValidInstr(p: Code, pc: nat)
    requires pc < |p|
  {
    var i := p[pc];
    match i.code
    case Ret => true
    case Ja => pc + 1 + i.k < |p|
    case LdAbs => LoadOk(i.k)
    case LdMem => i.k < 16
    case St => i.k < 16
    case _ => pc + 1 + i.jt < |p| && pc + 1 + i.jf < |p|
  }

  /** bpf_check_classic and seccomp_check_filter, without the scratch-memory dataflow. */
  predicate ValidProgram(p: Code) {
    && 1 <= |p| <= MAX_INSNS
    && (forall pc :: 0 <= pc < |p| ==> ValidInstr(p, pc))
    && p[|p| - 1].code == Ret
  }

  /** Along every path of the control-flow graph the program returns, having written every
      scratch cell before reading it. */
  ghost predicate ReturnsOnEveryPath(p: Code) {
    forall path: seq<bool> :: Run(p, 0, START.(path := path), AnyPath).Halt?
  }

  /** Number of instructions executed from `pc`. */
  function Steps(p: Code, pc: nat, s: State, e: Env): nat
    decreases |p| - pc
  {
    if pc >= |p| then 0
    else
      match KernelStep(p[pc], s, e)
      case Fwd(n, s') => 1 + Steps(p, pc + 1 + n, s', e)
      case _ => 1
  }

  lemma {:induction false} StepsBound(p: Code, pc: nat, s: State, e: Env)
    ensures Steps(p, pc, s, e) <= if pc < |p| then |p| - pc else 0
    decreases |p| - pc
  {
    if pc < |p| {
      match KernelStep(p[pc], s, e)
      case Fwd(n, s') => StepsBound(p, pc + 1 + n, s', e);
      case _ =>
    }
  }
}
