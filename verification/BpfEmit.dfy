/** bpf.c: the code minijail emits for one comparison of a system call argument with a
    64-bit constant, built from 32-bit comparisons. */
module BpfEmit {
  import opened BpfMachine

  // Operators of a policy atom.
  datatype Op = EQ | NE | LT | LE | GT | GE | SET | IN

  /** The 64-bit relation an atom stands for: numeric order, "some flag of c is set",
      "no flag outside c is set". */
  ghost predicate Holds(op: Op, x: Quad, c: Quad) {
    match op
    case EQ => x == c
    case NE => x != c
    case LT => x < c
    case LE => x <= c
    case GT => x > c
    case GE => x >= c
    case SET => exists i: nat :: i < 64 && Bit(x, i) && Bit(c, i)
    case IN => forall i: nat :: i < 64 && Bit(x, i) ==> Bit(c, i)
  }

  // ----- argument loads -----

  // LO_ARG / HI_ARG: offsetof(struct seccomp_data, args[idx]), cut to the 32 bits of `k`.
  function LoArg(idx: int): Word { (16 + 8 * idx) % TWO32 }
  function HiArg(idx: int): Word { (LoArg(idx) + 4) % TWO32 }

  function LoadArg(idx: int): Code {
    [Stmt(LdAbs, LoArg(idx)), Stmt(St, 0), Stmt(LdAbs, HiArg(idx)), Stmt(St, 1)]
  }

  /** The index names words inside struct seccomp_data. */
  predicate ArgInData(idx: int) { LoArg(idx) < DATA_SIZE }

  function ArgValue(d: SeccompData, idx: int): Quad
    requires ArgInData(idx)
  {
    ArgWordsLoadable(idx);
    LoadWord(d, LoArg(idx)) + TWO32 * LoadWord(d, HiArg(idx))
  }

  lemma ArgWordsLoadable(idx: int)
    ensures LoadOk(LoArg(idx)) <==> ArgInData(idx)
    ensures LoadOk(HiArg(idx)) <==> ArgInData(idx)
  {
    var q := (16 + 8 * idx) / TWO32;
    assert LoArg(idx) == 16 + 8 * idx - TWO32 * q;
    assert LoArg(idx) == 8 * (2 + idx - 0x2000_0000 * q);
  }

  /** Exactly eight indices, up to multiples of 2^29, lie in the data: besides the six arguments
      -1, which reads the instruction pointer, and -2, which reads the call's number and
      architecture. The compiler does not check. */
  lemma IndicesInData(d: SeccompData, idx: int)
    ensures ArgInData(idx) <==> (idx + 2) % 0x2000_0000 < 8
    ensures ArgInData(-1) && ArgValue(d, -1) == d.ip
    ensures ArgInData(-2) && ArgValue(d, -2) == d.nr + TWO32 * d.arch
  {
    var q, m := (idx + 2) / 0x2000_0000, (idx + 2) % 0x2000_0000;
    assert 16 + 8 * idx == TWO32 * q + 8 * m;
    assert LoArg(idx) == 8 * m by { Wrapped(q, 8 * m); }
    assert LoArg(-1) == 8 && LoArg(-2) == 0;
  }

  lemma Wrapped(q: int, r: Word)
    ensures (TWO32 * q + r) % TWO32 == r
  {
  }

  /** Indices 0 to 5 name the system call's arguments. */
  lemma ArgValueIsArgument(d: SeccompData, idx: int)
    requires 0 <= idx <= 5
    ensures ArgInData(idx) && ArgValue(d, idx) == d.args[idx]
  {
    assert LoArg(idx) == 16 + 8 * idx && HiArg(idx) == 20 + 8 * idx;
    assert (LoArg(idx) - 16) / 8 == idx && (HiArg(idx) - 20) / 8 == idx;
    assert d.args[idx] == Lo(d.args[idx]) + TWO32 * Hi(d.args[idx]);
  }

  lemma LoadArgRuns(idx: int, s: State, e: Env)
    ensures var x := Exec(LoadArg(idx), 0, s, e);
            if ArgInData(idx)
            then
              && x.Out? && x.skip == 0 && 0 in x.s.m
              && (e.On? ==> x.s.a == Hi(ArgValue(e.d, idx)) && x.s.m[0] == Lo(ArgValue(e.d, idx)))
            else x.Broken?
  {
    ArgWordsLoadable(idx);
    var c := LoadArg(idx);
    if ArgInData(idx) {
      var lo, hi := Loaded(e, LoArg(idx)), Loaded(e, HiArg(idx));
      var s1 := s.(a := lo);
      var s2 := s1.(m := s1.m[0 := lo]);
      var s3 := s2.(a := hi);
      var s4 := s3.(m := s3.m[1 := hi]);
      assert Exec(c, 3, s3, e) == Exec(c, 4, s4, e) == Out(0, s4);
      assert Exec(c, 0, s, e) == Exec(c, 1, s1, e) == Exec(c, 2, s2, e) == Exec(c, 3, s3, e);
    }
  }

  // ----- comparisons: jump over jt instructions when true, jf when false -----

  // Conversion of a jump offset to unsigned char.
  function U8(n: nat): Byte { n % 0x100 }

  datatype Comparison = CompEq | CompGt | CompGe | CompSet

  function Complement(c: Quad): Quad { 0xffff_ffff_ffff_ffff - c }

  function OpcodeOf(k: Comparison): Opcode {
    match k case CompEq => Jeq case CompGt => Jgt case CompGe => Jge case CompSet => Jset
  }

  // The branches on the high word.
  function HighHalf(k: Comparison, c: Quad, jt: Byte, jf: Byte): Code {
    match k
    case CompEq => [Instr(Jeq, Hi(c), 0, U8(2 + jf))]
    case CompSet => [Instr(Jset, Hi(c), U8(2 + jt), 0)]
    case _ =>
      if Hi(c) == 0 then [Instr(Jgt, 0, U8(2 + jt), 0)]
      else [Instr(Jgt, Hi(c), U8(3 + jt), 0), Instr(Jeq, Hi(c), 0, U8(2 + jf))]
  }

  /** bpf_comp_jeq64, bpf_comp_jgt64, bpf_comp_jge64, bpf_comp_jset64. */
  function Comp64(k: Comparison, c: Quad, jt: Byte, jf: Byte): Code {
    HighHalf(k, c, jt, jf) + [Stmt(LdMem, 0), Instr(OpcodeOf(k), Lo(c), jt, jf)]
  }

  ghost predicate Related(k: Comparison, x: Quad, c: Quad) {
    match k
    case CompEq => x == c
    case CompGt => x > c
    case CompGe => x >= c
    case CompSet => Holds(SET, x, c)
  }

  /** The offsets the emitted jumps add to jt and jf fit in their byte. */
  predicate OffsetsFit(k: Comparison, c: Quad, jt: Byte, jf: Byte) {
    match k
    case CompEq => jf <= 253
    case CompSet => jt <= 253
    case _ => if Hi(c) == 0 then jt <= 253 else jt <= 252 && jf <= 253
  }

  /** The argument has just been loaded: high word in A, low word in M[0]. */
  predicate ArgLoaded(s: State, x: Quad) {
    s.a == Hi(x) && 0 in s.m && s.m[0] == Lo(x)
  }

  lemma {:induction false} CommonBitMeets(x: nat, y: nat, i: nat)
    requires Bit(x, i) && Bit(y, i)
    ensures Meets(x, y)
    decreases i
  {
    if i > 0 {
      CommonBitMeets(x / 2, y / 2, i - 1);
    }
  }

  lemma {:induction false} MeetsInBit(x: nat, y: nat, n: nat) returns (i: nat)
    requires Meets(x, y) && x < Pow2(n)
    ensures i < n && Bit(x, i) && Bit(y, i)
    decreases n
  {
    if x % 2 == 1 && y % 2 == 1 {
      i := 0;
    } else {
      i := MeetsInBit(x / 2, y / 2, n - 1);
      i := i + 1;
    }
  }

  function Pow2(n: nat): nat { if n == 0 then 1 else 2 * Pow2(n - 1) }

  lemma {:induction false} MeetsSplit(xl: nat, xh: nat, yl: nat, yh: nat, n: nat)
    requires xl < Pow2(n) && yl < Pow2(n)
    ensures Meets(xl + Pow2(n) * xh, yl + Pow2(n) * yh) <==> Meets(xl, yl) || Meets(xh, yh)
    decreases n
  {
    MeetsNothing();
    hide Meets;
    if n > 0 {
      var p := Pow2(n - 1);
      DoubledProduct(p, xh);
      DoubledProduct(p, yh);
      MeetsSplit(xl / 2, xh, yl / 2, yh, n - 1);
      MeetsHalves(xl, p * xh, yl, p * yh);
      MeetsHalves(xl, 0, yl, 0);
    }
  }

  lemma DoubledProduct(p: nat, h: nat)
    ensures 2 * p * h == 2 * (p * h)
  {
  }

  lemma MeetsNothing()
    ensures !Meets(0, 0)
  {
  }

  lemma MeetsUnfold(x: nat, y: nat)
    ensures Meets(x, y) <==> (x % 2 == 1 && y % 2 == 1) || Meets(x / 2, y / 2)
  {
  }

  lemma MeetsHalves(xl: nat, x: nat, yl: nat, y: nat)
    ensures Meets(xl + 2 * x, yl + 2 * y) <==> (xl % 2 == 1 && yl % 2 == 1) || Meets(xl / 2 + x, yl / 2 + y)
  {
    hide Meets;
    MeetsUnfold(xl + 2 * x, yl + 2 * y);
    assert (xl + 2 * x) / 2 == xl / 2 + x && (xl + 2 * x) % 2 == xl % 2;
    assert (yl + 2 * y) / 2 == yl / 2 + y && (yl + 2 * y) % 2 == yl % 2;
  }

  lemma SplitsAt32(x: Quad)
    ensures Pow2(32) == TWO32 && Pow2(64) == TWO32 * TWO32
    ensures x == Lo(x) + TWO32 * Hi(x)
  {
    assert Pow2(8) == 256;
    assert Pow2(16) == 65536;
    assert Pow2(24) == 0x100_0000;
    assert Pow2(32) == TWO32;
    assert Pow2(40) == 0x100 * TWO32;
    assert Pow2(48) == 0x1_0000 * TWO32;
    assert Pow2(56) == 0x100_0000 * TWO32;
  }

  lemma SetIsMeets(x: Quad, c: Quad)
    ensures Holds(SET, x, c) <==> Meets(x, c)
  {
    SplitsAt32(x);
    if Meets(x, c) {
      var i := MeetsInBit(x, c, 64);
    }
    forall i: nat | i < 64 && Bit(x, i) && Bit(c, i) ensures Meets(x, c) {
      CommonBitMeets(x, c, i);
    }
  }

  lemma SetSplits(x: Quad, c: Quad)
    ensures Holds(SET, x, c) <==> Meets(Hi(x), Hi(c)) || Meets(Lo(x), Lo(c))
  {
    SetIsMeets(x, c);
    SplitsAt32(x);
    SplitsAt32(c);
    MeetsSplit(Lo(x), Hi(x), Lo(c), Hi(c), 32);
  }

  lemma {:induction false} ComplementBit(c: nat, n: nat, i: nat)
    requires c < Pow2(n) && i < n
    ensures Bit(Pow2(n) - 1 - c, i) <==> !Bit(c, i)
    decreases n
  {
    var y := Pow2(n) - 1 - c;
    assert y % 2 == 1 - c % 2 && y / 2 == Pow2(n - 1) - 1 - c / 2;
    if i > 0 {
      ComplementBit(c / 2, n - 1, i - 1);
    }
  }

  lemma InIsNotSetOutside(x: Quad, c: Quad)
    ensures Holds(IN, x, c) <==> !Holds(SET, x, Complement(c))
  {
    SplitsAt32(c);
    forall i: nat | i < 64
      ensures Bit(Complement(c), i) <==> !Bit(c, i)
    {
      ComplementBit(c, 64, i);
    }
  }

  // Offset a branch adds, in the given state.
  function Offset(i: Instr, s: State, e: Env): nat {
    if Taken(i, s, e) then i.jt else i.jf
  }

  lemma BranchRuns(i: Instr, s: State, e: Env)
    requires IsBranch(i)
    ensures Exec([i], 0, s, e) == Out(Offset(i, s, e), AfterBranch(s, e))
  {
    assert Step([i][0], s, e) == Fwd(Offset(i, s, e), AfterBranch(s, e));
  }

  // The low-word half: M[0] is swapped in and compared.
  lemma LowHalfRuns(i: Instr, s: State, e: Env)
    requires IsBranch(i) && 0 in s.m
    ensures var t := s.(a := s.m[0]);
            Exec([Stmt(LdMem, 0), i], 0, s, e) == Out(Offset(i, t, e), AfterBranch(t, e))
  {
    var t := s.(a := s.m[0]);
    var load := Stmt(LdMem, 0);
    assert Step([load][0], s, e) == Fwd(0, t);
    assert Exec([load], 0, s, e) == Out(0, t);
    ExecConcat([load], [i], 0, s, e);
    BranchRuns(i, t, e);
    assert [load] + [i] == [load, i];
  }

  // Entering the low half after skipping n instructions of it: all of it, its comparison alone on
  // whatever is in A, or nothing, with n - 2 instructions skipped beyond it.
  function FromLow(n: nat, i: Instr, s: State, e: Env): Exit
    requires 0 in s.m
  {
    var t := if n == 0 then s.(a := s.m[0]) else s;
    if n < 2 then Out(Offset(i, t, e), AfterBranch(t, e)) else Out(n - 2, s)
  }

  lemma LowRuns(n: nat, i: Instr, s: State, e: Env)
    requires IsBranch(i) && 0 in s.m
    ensures Exec([Stmt(LdMem, 0), i], n, s, e) == FromLow(n, i, s, e)
  {
    var load := Stmt(LdMem, 0);
    assert [load, i] == [load] + [i];
    if n == 0 {
      LowHalfRuns(i, s, e);
    } else {
      ExecTail([load], [i], n, s, e);
      BranchRuns(i, s, e);
    }
  }

  // A branch on the high word, then the low half, whatever the branch's offsets are.
  lemma ThreeRun(h: Instr, i: Instr, s: State, e: Env)
    requires IsBranch(h) && IsBranch(i) && 0 in s.m
    ensures Exec([h] + [Stmt(LdMem, 0), i], 0, s, e) == FromLow(Offset(h, s, e), i, AfterBranch(s, e), e)
  {
    BranchRuns(h, s, e);
    ExecConcat([h], [Stmt(LdMem, 0), i], 0, s, e);
    LowRuns(Offset(h, s, e), i, AfterBranch(s, e), e);
  }

  // The form with two branches on the high word.
  lemma FourRun(g: Instr, h: Instr, i: Instr, s: State, e: Env)
    requires IsBranch(g) && IsBranch(h) && IsBranch(i) && 0 in s.m
    ensures var n, s1 := Offset(g, s, e), AfterBranch(s, e);
            Exec([g] + ([h] + [Stmt(LdMem, 0), i]), 0, s, e) ==
            if n == 0 then FromLow(Offset(h, s1, e), i, AfterBranch(s1, e), e) else FromLow(n - 1, i, s1, e)
  {
    var n, s1, low := Offset(g, s, e), AfterBranch(s, e), [Stmt(LdMem, 0), i];
    BranchRuns(g, s, e);
    ExecConcat([g], [h] + low, 0, s, e);
    if n == 0 {
      ThreeRun(h, i, s1, e);
    } else {
      ExecTail([h], low, n, s1, e);
      LowRuns(n - 1, i, s1, e);
    }
  }

  // How the high word decides.
  predicate HighDecides(k: Comparison, x: Quad, c: Quad, outcome: bool) {
    match k
    case CompEq => Hi(x) != Hi(c) && !outcome
    case CompSet => Meets(Hi(x), Hi(c)) && outcome
    case _ => Hi(x) != Hi(c) && outcome == (Hi(x) > Hi(c))
  }

  // The order of 64-bit numbers by their words.
  lemma WordsOrder(x: Quad, c: Quad)
    ensures x == c <==> Hi(x) == Hi(c) && Lo(x) == Lo(c)
    ensures x > c <==> Hi(x) > Hi(c) || (Hi(x) == Hi(c) && Lo(x) > Lo(c))
  {
    SplitsAt32(x);
    SplitsAt32(c);
  }

  lemma WordsDecide(k: Comparison, x: Quad, c: Quad)
    ensures HighDecides(k, x, c, true) ==> Related(k, x, c)
    ensures HighDecides(k, x, c, false) ==> !Related(k, x, c)
    ensures !HighDecides(k, x, c, true) && !HighDecides(k, x, c, false) ==>
              (Related(k, x, c) <==> Test(Instr(OpcodeOf(k), Lo(c), 0, 0), Lo(x)))
  {
    hide Hi, Lo, Meets, Holds;
    if k == CompSet {
      SetSplits(x, c);
    } else {
      WordsOrder(x, c);
    }
  }

  // Comp64 as a first branch, an optional second one, and the low half.
  function HighBranch(k: Comparison, c: Quad, jt: Byte, jf: Byte): Instr {
    match k
    case CompEq => Instr(Jeq, Hi(c), 0, U8(2 + jf))
    case CompSet => Instr(Jset, Hi(c), U8(2 + jt), 0)
    case _ => if Hi(c) == 0 then Instr(Jgt, 0, U8(2 + jt), 0) else Instr(Jeq, Hi(c), 0, U8(2 + jf))
  }

  predicate Wide(k: Comparison, c: Quad) { (k == CompGt || k == CompGe) && Hi(c) != 0 }

  lemma Comp64Shape(k: Comparison, c: Quad, jt: Byte, jf: Byte)
    ensures var three := [HighBranch(k, c, jt, jf)] + [Stmt(LdMem, 0), Instr(OpcodeOf(k), Lo(c), jt, jf)];
            Comp64(k, c, jt, jf) ==
            if Wide(k, c) then [Instr(Jgt, Hi(c), U8(3 + jt), 0)] + three else three
  {
  }

  // The comparison run as a whole, for any outer offsets.
  function Landing(k: Comparison, c: Quad, jt: Byte, jf: Byte, s: State, e: Env): Exit
    requires 0 in s.m
  {
    var g, h := Instr(Jgt, Hi(c), U8(3 + jt), 0), HighBranch(k, c, jt, jf);
    var i, s1 := Instr(OpcodeOf(k), Lo(c), jt, jf), AfterBranch(s, e);
    if !Wide(k, c) then FromLow(Offset(h, s, e), i, s1, e)
    else if Offset(g, s, e) == 0 then FromLow(Offset(h, s1, e), i, AfterBranch(s1, e), e)
    else FromLow(Offset(g, s, e) - 1, i, s1, e)
  }

  lemma Comp64Runs(k: Comparison, c: Quad, jt: Byte, jf: Byte, s: State, e: Env)
    requires 0 in s.m
    ensures Exec(Comp64(k, c, jt, jf), 0, s, e) == Landing(k, c, jt, jf, s, e)
  {
    hide Exec, Comp64, FromLow;
    Comp64Shape(k, c, jt, jf);
    var h, i := HighBranch(k, c, jt, jf), Instr(OpcodeOf(k), Lo(c), jt, jf);
    if Wide(k, c) {
      FourRun(Instr(Jgt, Hi(c), U8(3 + jt), 0), h, i, s, e);
    } else {
      ThreeRun(h, i, s, e);
    }
  }

  /** The comparison meets its purpose on one argument: it skips jt instructions when the unsigned
      64-bit relation holds and jf when it does not. */
  ghost predicate ExactOn(k: Comparison, c: Quad, jt: Byte, jf: Byte, s: State, d: SeccompData, x: Quad) {
    var r := Exec(Comp64(k, c, jt, jf), 0, s, On(d));
    r.Out? && r.skip == if Related(k, x, c) then jt else jf
  }

  ghost predicate Exact(k: Comparison, c: Quad, jt: Byte, jf: Byte) {
    forall s: State, d: SeccompData, x: Quad :: ArgLoaded(s, x) ==> ExactOn(k, c, jt, jf, s, d, x)
  }

  // Offsets that fit, whatever the constant.
  predicate FitAll(k: Comparison, jt: Byte, jf: Byte) {
    match k
    case CompEq => jf <= 253
    case CompSet => jt <= 253
    case _ => jt <= 252 && jf <= 253
  }

  // Exact for offsets that fit.
  lemma Comp64Exact(k: Comparison, c: Quad, jt: Byte, jf: Byte, s: State, d: SeccompData, x: Quad)
    requires OffsetsFit(k, c, jt, jf) && ArgLoaded(s, x)
    ensures ExactOn(k, c, jt, jf, s, d, x)
  {
    hide Exec, Comp64, Related, Meets, Hi, Lo;
    Comp64Runs(k, c, jt, jf, s, On(d));
    WordsDecide(k, x, c);
    var i := Instr(OpcodeOf(k), Lo(c), jt, jf);
    assert Offset(i, s.(a := s.m[0]), On(d)) == if Test(Instr(OpcodeOf(k), Lo(c), 0, 0), Lo(x)) then jt else jf;
  }

  // With equal offsets it does not matter where a cut offset leads.
  lemma EqualOffsetsLand(k: Comparison, c: Quad, v: Byte, s: State, e: Env)
    requires 0 in s.m
    ensures var r := Landing(k, c, v, v, s, e); r.Out? && r.skip == v
  {
    hide Taken, Hi, Lo;
  }

  // A loaded argument on which the comparison misses.
  function Miss(k: Comparison, jt: Byte, jf: Byte): (Quad, Quad) {
    match k
    case CompEq => (if jf == 254 then 0 else 1, TWO32)
    case CompSet => (TWO32, TWO32)
    case _ => if jt >= 253 then (TWO32 + 5, 2 * TWO32) else (2 * TWO32, TWO32 + 5)
  }

  lemma Misses(k: Comparison, jt: Byte, jf: Byte, s: State, d: SeccompData)
    requires jt != jf && !FitAll(k, jt, jf) && ArgLoaded(s, Miss(k, jt, jf).1)
    ensures !ExactOn(k, Miss(k, jt, jf).0, jt, jf, s, d, Miss(k, jt, jf).1)
  {
    hide Exec, Comp64;
    var (c, x) := Miss(k, jt, jf);
    Comp64Runs(k, c, jt, jf, s, On(d));
    if k == CompSet {
      SetSplits(x, c);
      hide Holds;
      assert Meets(1, 1) && !Meets(0, 0) && !Meets(1, 0);
    }
  }

  /** Exactly which outer offsets the helpers honour, for all constants and arguments: those that
      still fit a byte after the skip is added, and equal ones. The others are cut to a byte and
      miss on some constant and argument. */
  lemma ExactOffsets(k: Comparison, jt: Byte, jf: Byte)
    ensures (forall c: Quad :: Exact(k, c, jt, jf)) <==> jt == jf || FitAll(k, jt, jf)
  {
    if jt == jf || FitAll(k, jt, jf) {
      forall c: Quad, s: State, d: SeccompData, x: Quad | ArgLoaded(s, x) ensures ExactOn(k, c, jt, jf, s, d, x) {
        if FitAll(k, jt, jf) {
          Comp64Exact(k, c, jt, jf, s, d, x);
        } else {
          Comp64Runs(k, c, jt, jf, s, On(d));
          EqualOffsetsLand(k, c, jt, s, On(d));
          hide Landing, Comp64, Exec;
        }
      }
    } else {
      var (c, x) := Miss(k, jt, jf);
      var s, d: SeccompData := State(Hi(x), map[0 := Lo(x)], []), Data(0, 0, 0, [0, 0, 0, 0, 0, 0]);
      hide ExactOn, Miss;
      assert ArgLoaded(s, x);
      Misses(k, jt, jf, s, d);
      assert !Exact(k, c, jt, jf);
    }
  }

  /** Along any path the code falls out at one of its two targets, whatever the offsets. */
  lemma Comp64Paths(k: Comparison, c: Quad, jt: Byte, jf: Byte, s: State)
    requires 0 in s.m
    ensures var r := Exec(Comp64(k, c, jt, jf), 0, s, AnyPath);
            r.Out? && (r.skip == jt || r.skip == jf)
  {
    hide Exec, Comp64, Taken, Hi, Lo;
    Comp64Runs(k, c, jt, jf, s, AnyPath);
  }

  // ----- a whole atom -----

  // The comparison function, constant and jump offsets bpf_arg_comp picks for an operator.
  function Plan(op: Op, c: Quad): (Comparison, Quad, Byte, Byte) {
    match op
    case EQ => (CompEq, c, 1, 0)
    case NE => (CompEq, c, 0, 1)
    case LT => (CompGe, c, 0, 1)
    case LE => (CompGt, c, 0, 1)
    case GT => (CompGt, c, 1, 0)
    case GE => (CompGe, c, 1, 0)
    case SET => (CompSet, c, 1, 0)
    case IN => (CompSet, Complement(c), 0, 1)
  }

  function CompOp(op: Op, c: Quad): Code {
    var (k, c', jt, jf) := Plan(op, c);
    Comp64(k, c', jt, jf)
  }

  /** Load the argument, compare, and jump to label `id` unless the relation holds. */
  function ArgComp(op: Op, idx: int, c: Quad, id: Word): Code {
    LoadArg(idx) + (CompOp(op, c) + [JumpTo(id)])
  }

  lemma PlanExact(op: Op, x: Quad, c: Quad)
    ensures var (k, c', jt, jf) := Plan(op, c);
            OffsetsFit(k, c', jt, jf) && (Holds(op, x, c) <==> (if Related(k, x, c') then jt else jf) == 1)
  {
    if op == IN {
      InIsNotSetOutside(x, c);
    }
  }

  lemma CompOpRuns(op: Op, c: Quad, s: State, e: Env, x: Quad)
    requires 0 in s.m && (e.On? ==> ArgLoaded(s, x))
    ensures var r := Exec(CompOp(op, c), 0, s, e);
            r.Out? && r.skip <= 1 && (e.On? ==> (r.skip == 1 <==> Holds(op, x, c)))
  {
    var (k, c', jt, jf) := Plan(op, c);
    PlanExact(op, x, c);
    match e
    case On(d) => Comp64Exact(k, c', jt, jf, s, d, x);
    case AnyPath => Comp64Paths(k, c', jt, jf, s);
  }

  lemma FailureJumpRuns(id: Word, n: nat, s: State, e: Env)
    ensures Exec([JumpTo(id)], n, s, e) == if n == 0 then Goto(id, s) else Out(n - 1, s)
  {
    if n == 0 {
      assert Step([JumpTo(id)][0], s, e) == Jump(id, s);
    }
  }

  /** An atom's block skips its failure jump exactly when the 64-bit relation holds; along any
      path it either falls through or takes that jump. */
  lemma ArgCompExact(op: Op, idx: int, c: Quad, id: Word, s: State, e: Env)
    requires ArgInData(idx)
    ensures var r := Exec(ArgComp(op, idx, c, id), 0, s, e);
            && ((r.Out? && r.skip == 0) || (r.Goto? && r.id == id))
            && (e.On? ==> (r.Out? <==> Holds(op, ArgValue(e.d, idx), c)))
  {
    LoadArgRuns(idx, s, e);
    var s1 := Exec(LoadArg(idx), 0, s, e).s;
    var x := if e.On? then ArgValue(e.d, idx) else 0;
    var tail := CompOp(op, c) + [JumpTo(id)];
    ExecConcat(LoadArg(idx), tail, 0, s, e);
    CompOpRuns(op, c, s1, e, x);
    var r := Exec(CompOp(op, c), 0, s1, e);
    ExecConcat(CompOp(op, c), [JumpTo(id)], 0, s1, e);
    FailureJumpRuns(id, r.skip, r.s, e);
  }

  /** An index outside the structure makes the load fail. */
  lemma ArgCompOutsideData(op: Op, idx: int, c: Quad, id: Word, s: State, e: Env)
    requires !ArgInData(idx)
    ensures Exec(ArgComp(op, idx, c, id), 0, s, e).Broken?
  {
    LoadArgRuns(idx, s, e);
    ExecConcat(LoadArg(idx), CompOp(op, c) + [JumpTo(id)], 0, s, e);
  }

  // ----- the code written through a moving pointer -----

  // bpf_arg_comp_len: the size bpf_arg_comp allocates.
  function ArgCompLen(op: Op, c: Quad): nat {
    match op
    case LT | LE | GT | GE => if Hi(c) == 0 then 4 + 3 + 1 else 4 + 4 + 1
    case _ => 4 + 3 + 1
  }

  method WriteLoadArg(filter: array<Instr>, at: nat, idx: int) returns (n: nat)
    requires at + 4 <= filter.Length
    modifies filter
    ensures n == 4 && Copied(filter[..], old(filter[..]), at, LoadArg(idx))
  {
    filter[at] := Stmt(LdAbs, LoArg(idx));
    filter[at + 1] := Stmt(St, 0);
    filter[at + 2] := Stmt(LdAbs, HiArg(idx));
    filter[at + 3] := Stmt(St, 1);
    n := 4;
  }

  method WriteHighHalf(filter: array<Instr>, at: nat, k: Comparison, c: Quad, jt: Byte, jf: Byte) returns (n: nat)
    requires at + |HighHalf(k, c, jt, jf)| <= filter.Length
    modifies filter
    ensures n == |HighHalf(k, c, jt, jf)|
    ensures Copied(filter[..], old(filter[..]), at, HighHalf(k, c, jt, jf))
  {
    var hi := Hi(c);
    n := 1;
    if k == CompEq {
      filter[at] := Instr(Jeq, hi, 0, U8(2 + jf));
    } else if k == CompSet {
      filter[at] := Instr(Jset, hi, U8(2 + jt), 0);
    } else if hi == 0 {
      filter[at] := Instr(Jgt, hi, U8(2 + jt), 0);
    } else {
      filter[at] := Instr(Jgt, hi, U8(3 + jt), 0);
      filter[at + 1] := Instr(Jeq, hi, 0, U8(2 + jf));
      n := 2;
    }
  }

  method WriteLowHalf(filter: array<Instr>, at: nat, k: Comparison, c: Quad, jt: Byte, jf: Byte)
    requires at + 2 <= filter.Length
    modifies filter
    ensures Copied(filter[..], old(filter[..]), at, [Stmt(LdMem, 0), Instr(OpcodeOf(k), Lo(c), jt, jf)])
  {
    filter[at] := Stmt(LdMem, 0);
    filter[at + 1] := Instr(OpcodeOf(k), Lo(c), jt, jf);
  }

  method WriteComp64(filter: array<Instr>, at: nat, k: Comparison, c: Quad, jt: Byte, jf: Byte) returns (n: nat)
    requires at + |Comp64(k, c, jt, jf)| <= filter.Length
    modifies filter
    ensures n == |Comp64(k, c, jt, jf)|
    ensures Copied(filter[..], old(filter[..]), at, Comp64(k, c, jt, jf))
  {
    hide HighHalf, Copied;
    n := WriteHighHalf(filter, at, k, c, jt, jf);
    ghost var half := filter[..];
    WriteLowHalf(filter, at + n, k, c, jt, jf);
    CopiedTwice(old(filter[..]), half, filter[..], at, HighHalf(k, c, jt, jf), [Stmt(LdMem, 0), Instr(OpcodeOf(k),
        Lo(c), jt, jf)]);
    n := n + 2;
  }

  lemma ArgCompLength(op: Op, idx: int, c: Quad, id: Word)
    ensures |ArgComp(op, idx, c, id)| == ArgCompLen(op, c) == 4 + |CompOp(op, c)| + 1
  {
  }

  /** bpf_arg_comp: the allocated buffer is filled exactly. */
  method BpfArgComp(op: Op, idx: int, c: Quad, id: Word) returns (filter: array<Instr>)
    ensures fresh(filter) && filter.Length == ArgCompLen(op, c)
    ensures filter[..] == ArgComp(op, idx, c, id)
  {
    hide Comp64, LoadArg, Copied, ArgCompLen;
    ArgCompLength(op, idx, c, id);
    filter := new Instr[ArgCompLen(op, c)](_ => Stmt(Ret, 0));
    ghost var b0 := filter[..];
    var cur := WriteLoadArg(filter, 0, idx);
    ghost var b1 := filter[..];
    var (k, c', jt, jf) := Plan(op, c);
    var n := WriteComp64(filter, cur, k, c', jt, jf);
    ghost var b2 := filter[..];
    cur := cur + n;
    filter[cur] := JumpTo(id);
    assert Copied(filter[..], b2, cur, [JumpTo(id)]) by { CopiedOne(b2, cur, JumpTo(id)); }
    CopiedTwice(b1, b2, filter[..], 4, CompOp(op, c), [JumpTo(id)]);
    CopiedTwice(b0, b1, filter[..], 0, LoadArg(idx), CompOp(op, c) + [JumpTo(id)]);
    CopiedAll(b0, filter[..], ArgComp(op, idx, c, id));
  }
}
