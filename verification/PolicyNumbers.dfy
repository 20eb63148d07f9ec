/** What an accepted program returns, in the kernel's own numbers and from the lines of the policy,
    without the functions the compiler is built from. */
module PolicyNumbers {
  import opened Common
  import opened BpfMachine
  import opened BpfEmit
  import opened Policy
  import opened PolicyValid
  import opened PolicyCompiler

  // ----- the expected words -----

  /** SECCOMP_RET_KILL, _KILL_PROCESS, _TRAP and _LOG. */
  predicate ActionReturns(a: Action, w: Word) {
    match a
    case Kill => w == 0
    case KillProcess => w == 0x8000_0000
    case Trap => w == 0x3_0000
    case Log => w == 0x7ffc_0000
  }

  // SECCOMP_RET_ERRNO in the upper half, the low 16 bits of the value in the lower.
  predicate ClauseReturns(r: Ret, a: Action, w: Word) {
    match r
    case NotReturn => false
    case Bare => a != Log && ActionReturns(a, w)
    case Errno(None) => false
    case Errno(Some(v)) => w / 0x1_0000 == 5 && w % 0x1_0000 == v % 0x1_0000
  }

  const Allowed: Word := 0x7fff_0000

  ghost predicate BodyReturns(b: Body, a: Action, d: SeccompData, w: Word) {
    match b
    case AllowAll => w == Allowed
    case Block(r) => ClauseReturns(r, a, w)
    case Filter(groups, clause) =>
      if SomeGroupTrue(groups, d) then w == Allowed
      else match clause case None => ActionReturns(a, w) case Some(r) => ClauseReturns(r, a, w)
  }

  /** Which clauses are refused: no return at all, a bare one under the log action, a value that is no
      constant, and one whose low 32 bits are all set, which the code takes for -1. */
  predicate ClauseOk(r: Ret, a: Action) {
    match r
    case NotReturn => false
    case Bare => a != Log
    case Errno(None) => false
    case Errno(Some(v)) => v % 0x1_0000_0000 != 0xffff_ffff
  }

  lemma ClauseWord(r: Ret, a: Action)
    ensures RetWord(r, a).Some? <==> ClauseOk(r, a)
    ensures RetWord(r, a).Some? ==> ClauseReturns(r, a, RetWord(r, a).value)
  {
  }

  lemma BodyWord(b: Body, a: Action, d: SeccompData)
    requires GoodBody(b, a)
    ensures BodyReturns(b, a, d, BodyVerdict(b, a, d))
  {
    match b
    case AllowAll =>
    case Block(r) => ClauseWord(r, a);
    case Filter(groups, clause) =>
      if clause.Some? {
        ClauseWord(clause.value, a);
      }
  }

  /** A rule's body is accepted exactly when its atoms and its clause are. */
  lemma BodyAccepted(b: Body, a: Action)
    ensures GoodBody(b, a) <==>
            match b
            case AllowAll => true
            case Block(r) => ClauseOk(r, a)
            case Filter(groups, clause) =>
              && (forall i, j :: 0 <= i < |groups| && 0 <= j < |groups[i]| ==> groups[i][j].Atom?)
              && (clause.Some? ==> ClauseOk(clause.value, a))
  {
    match b
    case AllowAll =>
    case Block(r) => ClauseWord(r, a);
    case Filter(groups, clause) =>
      if clause.Some? {
        ClauseWord(clause.value, a);
      }
      if GoodGroups(groups) {
        forall i, j | 0 <= i < |groups| && 0 <= j < |groups[i]| ensures groups[i][j].Atom? {
          assert GoodAtoms(groups[i]);
        }
      }
  }

  // ----- the rule that decides -----

  // Entry i is the first with that name, and no entry up to it ends the table.
  predicate EntryFor(table: seq<Syscall>, name: string, i: nat) {
    && i < |table| && table[i].name == name && table[i].nr >= 0
    && forall j :: 0 <= j < i ==> table[j].nr >= 0 && table[j].name != name
  }

  ghost predicate Numbered(table: seq<Syscall>, name: string, nr: int) {
    exists i: nat :: EntryFor(table, name, i) && table[i].nr == nr
  }

  lemma {:induction false} LookupIs(table: seq<Syscall>, name: string, from: nat)
    requires from <= |table| && forall j :: 0 <= j < from ==> table[j].nr >= 0 && table[j].name != name
    ensures var (nr, ind) := LookupFrom(table, name, from);
      if nr >= 0 then EntryFor(table, name, ind) && table[ind].nr == nr
      else nr == -1 && forall i: nat :: !EntryFor(table, name, i)
    decreases |table| - from
  {
    if from < |table| && table[from].nr >= 0 && table[from].name != name {
      LookupIs(table, name, from + 1);
    }
  }

  lemma NumberIs(table: seq<Syscall>, name: string, nr: int)
    ensures Numbered(table, name, nr) <==> LookupSyscall(table, name).0 == nr && nr >= 0
  {
    LookupIs(table, name, 0);
    var (found, ind) := LookupSyscall(table, name);
    if Numbered(table, name, nr) {
      var i: nat :| EntryFor(table, name, i) && table[i].nr == nr;
      assert found >= 0;
      assert !(i < ind) && !(ind < i);
    }
  }

  // A rule for this system call number.
  ghost predicate RuleFor(table: seq<Syscall>, line: Line, nr: Word) {
    line.Rule? && exists n :: Numbered(table, line.name, n) && n % 0x1_0000_0000 == nr
  }

  ghost predicate FirstLine(table: seq<Syscall>, ls: seq<Line>, nr: Word, k: nat) {
    k < |ls| && ls[k].Rule? && RuleFor(table, ls[k], nr) && forall i :: 0 <= i < k ==> !RuleFor(table, ls[i], nr)
  }

  // A name of an allowlist stands for its number, an unknown one for -1.
  ghost predicate Allows(table: seq<Syscall>, names: seq<string>, nr: Word) {
    exists i :: 0 <= i < |names| &&
      if exists n :: Numbered(table, names[i], n)
      then exists n :: Numbered(table, names[i], n) && n % 0x1_0000_0000 == nr
      else nr == 0xffff_ffff
  }

  ghost predicate Allowlisted(cfg: Config, nr: Word) {
    || (cfg.allowSyscallsForLogging && Allows(cfg.table, cfg.logSyscalls, nr))
    || (cfg.libcAllowlist && Allows(cfg.table, cfg.libcSyscalls, nr))
  }

  /** The word for a system call: kill on a foreign architecture, then the allowlists, then the first
      line for its number, then the default action. */
  ghost predicate Returns(cfg: Config, ls: seq<Line>, d: SeccompData, w: Word) {
    if d.arch != cfg.arch then w == 0
    else if Allowlisted(cfg, d.nr) then w == Allowed
    else if exists k: nat :: FirstLine(cfg.table, ls, d.nr, k)
    then forall k: nat :: FirstLine(cfg.table, ls, d.nr, k) ==> BodyReturns(ls[k].body, cfg.action, d, w)
    else ActionReturns(cfg.action, w)
  }

  // ----- the rules of a policy, by its lines -----

  lemma RuleForIs(table: seq<Syscall>, line: Line, nr: Word)
    ensures RuleFor(table, line, nr) <==> RuleOf(table, line) != [] && RuleOf(table, line)[0].nr == nr
    ensures var r := RuleOf(table, line); r != [] ==> line.Rule? && r == [NrRule(r[0].nr, line.body)]
  {
    if line.Rule? {
      forall n ensures Numbered(table, line.name, n) <==> LookupSyscall(table, line.name).0 == n && n >= 0 {
        NumberIs(table, line.name, n);
      }
    }
    hide Numbered, LookupFrom;
    if RuleOf(table, line) != [] {
      assert Numbered(table, line.name, LookupSyscall(table, line.name).0);
    }
  }

  // The place of the first rule for a number, among the rules of a line and those that follow.
  lemma FirstAmong(here: seq<NrRule>, tail: seq<NrRule>, nr: Word)
    requires |here| <= 1
    ensures FirstFor(here + tail, nr) ==
            if here != [] && here[0].nr == nr then 0 else |here| + FirstFor(tail, nr)
  {
    if here == [] {
      assert here + tail == tail;
    } else {
      assert (here + tail)[1..] == tail;
    }
  }

  // The first line for a number, and the first rule for it.
  lemma {:induction false} FirstLineIs(table: seq<Syscall>, ls: seq<Line>, nr: Word)
    ensures var rules, i := RulesOf(table, ls), FirstFor(RulesOf(table, ls), nr);
      if i < |rules| then exists k: nat :: FirstLine(table, ls, nr, k) && ls[k].body == rules[i].body
      else forall k :: 0 <= k < |ls| ==> !RuleFor(table, ls[k], nr)
  {
    if ls != [] {
      var rest, here, tail := ls[1..], RuleOf(table, ls[0]), RulesOf(table, ls[1..]);
      assert RulesOf(table, ls) == here + tail;
      FirstLineIs(table, rest, nr);
      RuleForIs(table, ls[0], nr);
      FirstAmong(here, tail, nr);
      hide RuleFor, RuleOf, RulesOf, FirstFor;
      var i := FirstFor(tail, nr);
      if here != [] && here[0].nr == nr {
        assert FirstLine(table, ls, nr, 0);
      } else if i < |tail| {
        var k: nat :| FirstLine(table, rest, nr, k) && rest[k].body == tail[i].body;
        NextLine(table, ls, nr, k);
        assert (here + tail)[|here| + i] == tail[i] && ls[k + 1] == rest[k];
      } else {
        assert forall k :: 0 < k < |ls| ==> ls[k] == rest[k - 1];
      }
    }
  }

  lemma NextLine(table: seq<Syscall>, ls: seq<Line>, nr: Word, k: nat)
    requires ls != [] && !RuleFor(table, ls[0], nr) && FirstLine(table, ls[1..], nr, k)
    ensures FirstLine(table, ls, nr, k + 1)
  {
    hide RuleFor;
    assert forall i :: 0 < i < |ls| ==> ls[i] == ls[1..][i - 1];
  }

  lemma AllowsIs(table: seq<Syscall>, names: seq<string>, nr: Word)
    ensures Allows(table, names, nr) <==> exists i :: 0 <= i < |names| && AllowRules(table, names)[i].nr == nr
  {
    forall name, n ensures Numbered(table, name, n) <==> LookupSyscall(table, name).0 == n && n >= 0 {
      NumberIs(table, name, n);
    }
    forall i | 0 <= i < |names| ensures LookupSyscall(table, names[i]).0 >= -1 {
      LookupIs(table, names[i], 0);
    }
    hide Numbered, LookupFrom;
    var rules := AllowRules(table, names);
    assert forall i :: 0 <= i < |names| ==> rules[i].nr == LookupSyscall(table, names[i]).0 % 0x1_0000_0000;
    if Allows(table, names, nr) {
      var i :| 0 <= i < |names| &&
        if exists n :: Numbered(table, names[i], n)
        then exists n :: Numbered(table, names[i], n) && n % 0x1_0000_0000 == nr
        else nr == 0xffff_ffff;
      assert Numbered(table, names[i], LookupSyscall(table, names[i]).0) || LookupSyscall(table, names[i]).0 == -1;
      assert rules[i].nr == nr;
    }
    if i :| 0 <= i < |names| && rules[i].nr == nr {
      assert Numbered(table, names[i], LookupSyscall(table, names[i]).0) || LookupSyscall(table, names[i]).0 == -1;
    }
  }

  lemma {:induction false} FirstForConcat(a: seq<NrRule>, b: seq<NrRule>, nr: Word)
    ensures FirstFor(a + b, nr) == if FirstFor(a, nr) < |a| then FirstFor(a, nr) else |a| + FirstFor(b, nr)
  {
    if a == [] {
      assert a + b == b;
    } else {
      assert (a + b)[0] == a[0] && (a + b)[1..] == a[1..] + b;
      FirstForConcat(a[1..], b, nr);
    }
  }

  lemma FirstForFound(rules: seq<NrRule>, nr: Word)
    ensures FirstFor(rules, nr) < |rules| <==> exists i :: 0 <= i < |rules| && rules[i].nr == nr
  {
    FirstForBound(rules, nr);
  }

  // An allowlist catches exactly the numbers it allows.
  lemma ListCatches(on: bool, table: seq<Syscall>, names: seq<string>, nr: Word)
    ensures var rules := if on then AllowRules(table, names) else [];
      FirstFor(rules, nr) < |rules| <==> on && Allows(table, names, nr)
  {
    AllowsIs(table, names, nr);
    hide Allows;
    FirstForFound(AllowRules(table, names), nr);
  }

  lemma AllowlistsCatch(cfg: Config, nr: Word)
    ensures FirstFor(Allowlists(cfg), nr) < |Allowlists(cfg)| <==> Allowlisted(cfg, nr)
    ensures forall i :: 0 <= i < |Allowlists(cfg)| ==> Allowlists(cfg)[i].body.AllowAll?
  {
    var a := if cfg.allowSyscallsForLogging then AllowRules(cfg.table, cfg.logSyscalls) else [];
    var b := if cfg.libcAllowlist then AllowRules(cfg.table, cfg.libcSyscalls) else [];
    ListCatches(cfg.allowSyscallsForLogging, cfg.table, cfg.logSyscalls, nr);
    ListCatches(cfg.libcAllowlist, cfg.table, cfg.libcSyscalls, nr);
    FirstForConcat(a, b, nr);
    FirstForBound(b, nr);
    hide Allows;
  }

  lemma OnlyFirstLine(table: seq<Syscall>, ls: seq<Line>, nr: Word, i: nat, j: nat)
    requires FirstLine(table, ls, nr, i) && FirstLine(table, ls, nr, j)
    ensures i == j
  {
    hide RuleFor;
  }

  /** The policy's verdict is the expected word. */
  lemma VerdictReturns(cfg: Config, ls: seq<Line>, d: SeccompData)
    requires GoodRules(Allowlists(cfg) + RulesOf(cfg.table, ls), cfg.action)
    ensures Returns(cfg, ls, d, PolicyVerdict(cfg, Allowlists(cfg) + RulesOf(cfg.table, ls), d))
  {
    var allow, own := Allowlists(cfg), RulesOf(cfg.table, ls);
    AllowlistsCatch(cfg, d.nr);
    FirstForConcat(allow, own, d.nr);
    FirstForBound(allow, d.nr);
    FirstForBound(own, d.nr);
    FirstLineIs(cfg.table, ls, d.nr);
    hide Allowlists, Allowlisted, FirstFor, RulesOf, RuleFor, BodyReturns, BodyVerdict, GoodBody;
    var i := FirstFor(own, d.nr);
    if d.arch == cfg.arch && !Allowlisted(cfg, d.nr) && i < |own| {
      assert (allow + own)[|allow| + i] == own[i];
      BodyWord(own[i].body, cfg.action, d);
      forall k: nat | FirstLine(cfg.table, ls, d.nr, k) ensures ls[k].body == own[i].body {
        var j: nat :| FirstLine(cfg.table, ls, d.nr, j) && ls[j].body == own[i].body;
        OnlyFirstLine(cfg.table, ls, d.nr, j, k);
      }
    }
    CaughtIsAllowed(cfg, ls, d);
  }

  lemma CaughtIsAllowed(cfg: Config, ls: seq<Line>, d: SeccompData)
    requires GoodRules(Allowlists(cfg) + RulesOf(cfg.table, ls), cfg.action)
    requires FirstFor(Allowlists(cfg), d.nr) <= |Allowlists(cfg)|
    requires forall i :: 0 <= i < |Allowlists(cfg)| ==> Allowlists(cfg)[i].body.AllowAll?
    ensures d.arch == cfg.arch && FirstFor(Allowlists(cfg), d.nr) < |Allowlists(cfg)| ==>
      PolicyVerdict(cfg, Allowlists(cfg) + RulesOf(cfg.table, ls), d) == Allowed
  {
    FirstForConcat(Allowlists(cfg), RulesOf(cfg.table, ls), d.nr);
    hide Allowlists, RulesOf, FirstFor;
  }

  /** What the program of an accepted policy returns for every system call. */
  lemma AcceptedReturns(cfg: Config, files: Files, lines: seq<Line>, d: SeccompData)
    requires CompileFilter(cfg, files, lines).Ok?
    requires Splice(files, lines).Some?
    requires RulesInData(Allowlists(cfg) + RulesOf(cfg.table, Splice(files, lines).value))
    ensures var x := Decide(CompileFilter(cfg, files, lines).value, d);
      x.Halt? && Returns(cfg, Splice(files, lines).value, d, x.verdict)
    ensures |CompileFilter(cfg, files, lines).value| <= 4096
  {
    CompilerCorrect(cfg, files, lines);
    hide CompileFilter, Splice, RulesOf, Allowlists, Decide, Returns, PolicyVerdict, GoodRules;
    VerdictReturns(cfg, Splice(files, lines).value, d);
  }

  // ----- includes -----

  // A path from the root or from the current directory, to a file without includes of its own.
  predicate Honoured(files: Files, path: string) {
    && ("/" <= path || "./" <= path) && path in files
    && forall i :: 0 <= i < |files[path]| ==> !files[path][i].Include?
  }

  /** Includes can be spliced exactly when each of them is honoured. */
  lemma {:induction false} IncludesHonoured(files: Files, lines: seq<Line>)
    ensures Splice(files, lines).Some? <==>
            forall k :: 0 <= k < |lines| && lines[k].Include? ==> Honoured(files, lines[k].path)
  {
    if lines != [] {
      IncludesHonoured(files, lines[1..]);
      var line := lines[0];
      assert line.Include? ==> ("/" <= line.path || "./" <= line.path) == !ImplicitRelative(line.path);
      hide ImplicitRelative;
      assert forall k :: 0 < k < |lines| ==> lines[k] == lines[1..][k - 1];
      if forall k :: 0 <= k < |lines| && lines[k].Include? ==> Honoured(files, lines[k].path) {
        assert forall k :: 0 <= k < |lines[1..]| ==> lines[1..][k] == lines[k + 1];
      }
    }
  }
}
