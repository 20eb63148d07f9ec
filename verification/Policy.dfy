/** Seccomp policies: their abstract syntax and what they decide. */
module Policy {
  import opened Common
  import opened BpfMachine
  import opened BpfEmit
  import opened BpfResolve

  // ----- syntax -----

  /** An atom `argN op constant`; BadAtom is text compile_atom refuses. */
  datatype Atom = BadAtom | Atom(arg: int, op: Op, c: Quad)

  /** A `return` clause: text that is no return clause, a bare `return`, or `return VALUE`
      (None when VALUE is not a constant). */
  datatype Ret = NotReturn | Bare | Errno(value: Option<int>)

  /** `1`, an unconditional return, or a disjunction of conjunctions with an optional return. */
  datatype Body = AllowAll | Block(block: Ret) | Filter(groups: seq<seq<Atom>>, otherwise: Option<Ret>)

  /** A logical line of a policy file. */
  datatype Line =
    | Ignored                  // comment, empty line, @frequency
    | BadStatement             // another @ statement, or a malformed @include
    | Include(path: string)
    | MissingColon
    | EmptyRule                // nothing after the colon
    | Rule(name: string, body: Body)

  datatype Action = Kill | Trap | Log | KillProcess

  datatype Syscall = Syscall(name: string, nr: int)

  datatype Config = Config(
    arch: Word,
    table: seq<Syscall>,
    action: Action,
    allowLogging: bool,
    allowSyscallsForLogging: bool,
    allowDuplicates: bool,
    libcAllowlist: bool,
    logSyscalls: seq<string>,
    libcSyscalls: seq<string>)

  type Files = map<string, seq<Line>>

  // lookup_syscall: the scan stops at the first entry with a negative number.
  function LookupFrom(table: seq<Syscall>, name: string, i: nat): (int, nat)
    requires i <= |table|
    decreases |table| - i
  {
    if i == |table| || table[i].nr < 0 then (-1, |table|)
    else if table[i].name == name then (table[i].nr, i)
    else LookupFrom(table, name, i + 1)
  }

  function LookupSyscall(table: seq<Syscall>, name: string): (int, nat) {
    LookupFrom(table, name, 0)
  }

  function ToWord(n: int): Word { n % TWO32 }

  // ----- meaning -----

  function ActionWord(a: Action): Word {
    match a
    case Kill => RET_KILL
    case KillProcess => RET_KILL_PROCESS
    case Trap => RET_TRAP
    case Log => RET_LOG
  }

  /** What a return clause returns; None when it is refused. The value is cut to an int, -1 is
      refused, and the low 16 bits become the errno. */
  function RetWord(r: Ret, a: Action): Option<Word> {
    match r
    case NotReturn => None
    case Bare => if a == Log then None else Some(ActionWord(a))
    case Errno(None) => None
    case Errno(Some(v)) => if ToWord(v) == 0xffff_ffff then None else Some(RET_ERRNO + v % 0x1_0000)
  }

  function OtherwiseWord(r: Option<Ret>, a: Action): Option<Word> {
    match r case None => Some(ActionWord(a)) case Some(ret) => RetWord(ret, a)
  }

  ghost predicate AtomTrue(a: Atom, d: SeccompData) {
    a.Atom? && ArgInData(a.arg) && Holds(a.op, ArgValue(d, a.arg), a.c)
  }

  ghost predicate GroupTrue(g: seq<Atom>, d: SeccompData) {
    forall i :: 0 <= i < |g| ==> AtomTrue(g[i], d)
  }

  ghost predicate SomeGroupTrue(groups: seq<seq<Atom>>, d: SeccompData) {
    exists i :: 0 <= i < |groups| && GroupTrue(groups[i], d)
  }

  // A body the compiler accepts.
  predicate GoodAtoms(g: seq<Atom>) { forall i :: 0 <= i < |g| ==> g[i].Atom? }

  predicate GoodGroups(groups: seq<seq<Atom>>) { forall i :: 0 <= i < |groups| ==> GoodAtoms(groups[i]) }

  predicate GoodBody(b: Body, a: Action) {
    match b
    case AllowAll => true
    case Block(r) => RetWord(r, a).Some?
    case Filter(groups, r) => GoodGroups(groups) && OtherwiseWord(r, a).Some?
  }

  /** The decision of one rule: a true disjunct allows, otherwise the rule's return. */
  ghost function BodyVerdict(b: Body, a: Action, d: SeccompData): Word
    requires GoodBody(b, a)
  {
    match b
    case AllowAll => RET_ALLOW
    case Block(r) => RetWord(r, a).value
    case Filter(groups, r) => if SomeGroupTrue(groups, d) then RET_ALLOW else OtherwiseWord(r, a).value
  }

  /** A rule that survived name lookup. */
  datatype NrRule = NrRule(nr: Word, body: Body)

  // The first rule for a system call number; |rules| when there is none.
  function FirstFor(rules: seq<NrRule>, nr: Word): nat {
    if rules == [] || rules[0].nr == nr then 0 else 1 + FirstFor(rules[1..], nr)
  }

  lemma FirstForBound(rules: seq<NrRule>, nr: Word)
    ensures FirstFor(rules, nr) <= |rules|
    ensures FirstFor(rules, nr) < |rules| ==> rules[FirstFor(rules, nr)].nr == nr
    ensures forall i :: 0 <= i < FirstFor(rules, nr) ==> rules[i].nr != nr
  {
  }

  ghost predicate GoodRules(rules: seq<NrRule>, a: Action) {
    forall i :: 0 <= i < |rules| ==> GoodBody(rules[i].body, a)
  }

  /** What a policy decides: kill on a foreign architecture, otherwise the first rule for the
      system call, otherwise the default action. */
  ghost function PolicyVerdict(cfg: Config, rules: seq<NrRule>, d: SeccompData): Word
    requires GoodRules(rules, cfg.action)
  {
    var i := FirstFor(rules, d.nr);
    FirstForBound(rules, d.nr);
    if d.arch != cfg.arch then RET_KILL
    else if i < |rules| then BodyVerdict(rules[i].body, cfg.action, d)
    else ActionWord(cfg.action)
  }

  /** Every argument index of the policy names a word of struct seccomp_data. */
  predicate AtomsInData(g: seq<Atom>) { forall i :: 0 <= i < |g| ==> g[i].Atom? && ArgInData(g[i].arg) }

  predicate BodyInData(b: Body) {
    b.Filter? ==> forall i :: 0 <= i < |b.groups| ==> AtomsInData(b.groups[i])
  }

  predicate RulesInData(rules: seq<NrRule>) {
    forall i :: 0 <= i < |rules| ==> BodyInData(rules[i].body)
  }

  // ----- includes and the rules of a policy -----

  // is_implicit_relative_path
  predicate ImplicitRelative(path: string) {
    !(|path| >= 1 && path[0] == '/') && !(|path| >= 2 && path[0] == '.' && path[1] == '/')
  }

  predicate NoIncludes(lines: seq<Line>) { forall i :: 0 <= i < |lines| ==> !lines[i].Include? }

  /** The policy with each @include replaced by the lines of the file it names; None when an
      include cannot be honoured. */
  function Splice(files: Files, lines: seq<Line>): Option<seq<Line>> {
    if lines == [] then Some([])
    else
      var here :=
        if !lines[0].Include? then Some([lines[0]])
        else if ImplicitRelative(lines[0].path) || lines[0].path !in files then None
        else if !NoIncludes(files[lines[0].path]) then None
        else Some(files[lines[0].path]);
      var rest := Splice(files, lines[1..]);
      if here.Some? && rest.Some? then Some(here.value + rest.value) else None
  }

  /** The rules of a policy without includes, in order, unknown system calls dropped. */
  function RulesOf(table: seq<Syscall>, lines: seq<Line>): seq<NrRule> {
    if lines == [] then []
    else RuleOf(table, lines[0]) + RulesOf(table, lines[1..])
  }

  function RuleOf(table: seq<Syscall>, line: Line): seq<NrRule> {
    if line.Rule? && LookupSyscall(table, line.name).0 >= 0
    then [NrRule(ToWord(LookupSyscall(table, line.name).0), line.body)]
    else []
  }

  lemma {:induction false} RulesOfConcat(table: seq<Syscall>, a: seq<Line>, b: seq<Line>)
    ensures RulesOf(table, a + b) == RulesOf(table, a) + RulesOf(table, b)
  {
    if a == [] {
      assert a + b == b;
    } else {
      assert (a + b)[0] == a[0] && (a + b)[1..] == a[1..] + b;
      RulesOfConcat(table, a[1..], b);
    }
  }

  // allow_selected_syscalls: a name that is not in the table is compared as number -1.
  function AllowRules(table: seq<Syscall>, names: seq<string>): seq<NrRule> {
    seq(|names|, i requires 0 <= i < |names| => NrRule(ToWord(LookupSyscall(table, names[i]).0), AllowAll))
  }

  function Allowlists(cfg: Config): seq<NrRule> {
    (if cfg.allowSyscallsForLogging then AllowRules(cfg.table, cfg.logSyscalls) else [])
    + (if cfg.libcAllowlist then AllowRules(cfg.table, cfg.libcSyscalls) else [])
  }
}
