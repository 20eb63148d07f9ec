/** The program of a policy as a whole: what it decides, and that the kernel accepts it. */
module PolicyValid {
  import opened Common
  import opened BpfMachine
  import opened BpfEmit
  import opened BpfResolve
  import opened FilterBlocks
  import opened Policy
  import opened PolicyCode

  ghost predicate Implements(x: Entry, r: NrRule, a: Action) {
    && x.nr == r.nr
    && match x
       case AllowEntry(_) => r.body.AllowAll?
       case SectionEntry(_, id, blocks) => SectionFor(id, blocks, r.body, a)
  }

  ghost predicate AllImplement(entries: seq<Entry>, rules: seq<NrRule>, a: Action) {
    |entries| == |rules| && forall i :: 0 <= i < |rules| ==> Implements(entries[i], rules[i], a)
  }

  lemma AllImplementConcat(e1: seq<Entry>, r1: seq<NrRule>, e2: seq<Entry>, r2: seq<NrRule>, a: Action)
    requires AllImplement(e1, r1, a) && AllImplement(e2, r2, a)
    ensures AllImplement(e1 + e2, r1 + r2, a)
  {
    forall i | 0 <= i < |r1 + r2| ensures Implements((e1 + e2)[i], (r1 + r2)[i], a) {
      if i >= |r1| {
        assert Implements(e2[i - |r1|], r2[i - |r1|], a);
      }
    }
  }

  lemma AllGood(entries: seq<Entry>, rules: seq<NrRule>, a: Action)
    requires AllImplement(entries, rules, a)
    ensures GoodRules(rules, a)
  {
    forall i | 0 <= i < |rules| ensures GoodBody(rules[i].body, a) {
      assert Implements(entries[i], rules[i], a);
    }
  }

  lemma {:induction false} FirstAgrees(entries: seq<Entry>, rules: seq<NrRule>, nr: Word)
    requires |entries| == |rules| && forall i :: 0 <= i < |rules| ==> entries[i].nr == rules[i].nr
    ensures FirstEntry(entries, nr) == FirstFor(rules, nr)
  {
    if entries != [] {
      FirstAgrees(entries[1..], rules[1..], nr);
    }
  }

  // ----- what the program decides -----

  /** Leaving the head for entry k ends in that entry's decision. */
  lemma EntryReached(entries: seq<Entry>, rules: seq<NrRule>, a: Action, k: nat, r: Exit, e: Env)
    requires AllImplement(entries, rules, a) && RulesInData(rules) && k < |entries|
    requires LeavesFor(r, entries, k) && DistinctLabels(SectionsCode(entries))
    ensures GoodBody(rules[k].body, a)
    ensures var x := Resume(r, SectionsCode(entries), e);
            x.Halt? && (e.On? ==> x.verdict == BodyVerdict(rules[k].body, a, e.d))
  {
    assert Implements(entries[k], rules[k], a);
    match entries[k]
    case AllowEntry(_) =>
    case SectionEntry(_, id, _) => SectionReached(entries, k, rules[k].body, a, r.s, e);
  }

  lemma ProgramRuns(cfg: Config, entries: seq<Entry>, rules: seq<NrRule>, s: State, e: Env)
    requires AllImplement(entries, rules, cfg.action) && RulesInData(rules)
    requires DistinctLabels(ProgramCode(cfg.arch, entries, ActionWord(cfg.action)))
    ensures GoodRules(rules, cfg.action)
    ensures var r := Exec(ProgramCode(cfg.arch, entries, ActionWord(cfg.action)), 0, s, e);
            r.Halt? && (e.On? ==> r.verdict == PolicyVerdict(cfg, rules, e.d))
  {
    var default := ActionWord(cfg.action);
    var head, sections := HeadCode(cfg.arch, entries, default), SectionsCode(entries);
    AllGood(entries, rules, cfg.action);
    assert head + (sections + []) == head + sections;
    DistinctInside(head, sections, []);
    var k := HeadRuns(cfg.arch, entries, default, s, e);
    ExecConcat(head, sections, 0, s, e);
    var r := Exec(head, 0, s, e);
    if e.On? && e.d.arch == cfg.arch {
      forall i | 0 <= i < |rules| ensures entries[i].nr == rules[i].nr {
        assert Implements(entries[i], rules[i], cfg.action);
      }
      FirstAgrees(entries, rules, e.d.nr);
    }
    if !(r == Halt(RET_KILL)) && k < |entries| {
      EntryReached(entries, rules, cfg.action, k, r, e);
    } else if k < |entries| && LeavesFor(r, entries, k) {
      EntryReached(entries, rules, cfg.action, k, r, e);
    }
  }

  /** End to end: the resolved program decides every system call as the policy does, and along
      every path of its control-flow graph it returns without reading an unwritten scratch cell. */
  lemma ProgramDecides(cfg: Config, entries: seq<Entry>, rules: seq<NrRule>, count: nat)
    requires AllImplement(entries, rules, cfg.action) && RulesInData(rules)
    requires Resolvable(ProgramCode(cfg.arch, entries, ActionWord(cfg.action)), count)
    ensures GoodRules(rules, cfg.action)
    ensures var p := Resolved(ProgramCode(cfg.arch, entries, ActionWord(cfg.action)));
            && (forall d: SeccompData :: Decide(p, d) == Halt(PolicyVerdict(cfg, rules, d)))
            && ReturnsOnEveryPath(p)
  {
    AllGood(entries, rules, cfg.action);
    var c := ProgramCode(cfg.arch, entries, ActionWord(cfg.action));
    var p := Resolved(c);
    forall d: SeccompData ensures Decide(p, d) == Halt(PolicyVerdict(cfg, rules, d)) {
      ResolutionRefines(c, count, 0, START, On(d));
      ProgramRuns(cfg, entries, rules, START, On(d));
    }
    forall path: seq<bool> ensures Run(p, 0, START.(path := path), AnyPath).Halt? {
      ResolutionRefines(c, count, 0, START.(path := path), AnyPath);
      ProgramRuns(cfg, entries, rules, START.(path := path), AnyPath);
    }
  }

  // ----- what the kernel checks -----

  // Everything about an instruction that does not depend on the data layout.
  predicate Placed1(c: Code, pc: nat)
    requires pc < |c|
  {
    var i := c[pc];
    match i.code
    case Ja => IsJump(i) || IsLabel(i)
    case LdMem => i.k < 16
    case St => i.k < 16
    case Ret => true
    case LdAbs => true
    case _ => pc + 1 + i.jt <= |c| && pc + 1 + i.jf <= |c|
  }

  // Branches stay inside or land just after the code.
  predicate WellPlaced(c: Code) { forall pc :: 0 <= pc < |c| ==> Placed1(c, pc) }

  predicate LoadsOk(c: Code) { forall pc :: 0 <= pc < |c| && c[pc].code == LdAbs ==> LoadOk(c[pc].k) }

  lemma WellPlacedConcat(a: Code, b: Code)
    requires WellPlaced(a) && WellPlaced(b)
    ensures WellPlaced(a + b)
  {
    var c := a + b;
    forall pc | 0 <= pc < |c| ensures Placed1(c, pc) {
      if pc < |a| {
        assert c[pc] == a[pc] && Placed1(a, pc);
      } else {
        assert c[pc] == b[pc - |a|] && Placed1(b, pc - |a|);
      }
    }
  }

  lemma LoadsOkConcat(a: Code, b: Code)
    ensures LoadsOk(a + b) <==> LoadsOk(a) && LoadsOk(b)
  {
    var c := a + b;
    if LoadsOk(c) {
      forall pc | 0 <= pc < |a| && a[pc].code == LdAbs ensures LoadOk(a[pc].k) { assert c[pc] == a[pc]; }
      forall pc | 0 <= pc < |b| && b[pc].code == LdAbs ensures LoadOk(b[pc].k) { assert c[|a| + pc] == b[pc]; }
    }
  }

  lemma CompOpPlaced(op: Op, c: Quad)
    ensures WellPlaced(CompOp(op, c) + [JumpTo(0)])
    ensures forall pc :: 0 <= pc < |CompOp(op, c)| ==> CompOp(op, c)[pc].code != LdAbs
  {
    var (k, c', jt, jf) := Plan(op, c);
    Comp64Shape(k, c', jt, jf);
  }

  // Changing the label of the final jump does not move anything.
  lemma FinalJump(c: Code, id: Word)
    requires WellPlaced(c + [JumpTo(0)])
    ensures WellPlaced(c + [JumpTo(id)])
  {
    var x, y := c + [JumpTo(0)], c + [JumpTo(id)];
    forall pc | 0 <= pc < |y| ensures Placed1(y, pc) {
      assert Placed1(x, pc);
      if pc < |c| { assert x[pc] == y[pc]; }
    }
  }

  lemma ArgCompPlaced(op: Op, idx: int, c: Quad, id: Word)
    ensures WellPlaced(ArgComp(op, idx, c, id))
    ensures LoadsOk(ArgComp(op, idx, c, id)) <==> ArgInData(idx)
  {
    CompOpPlaced(op, c);
    FinalJump(CompOp(op, c), id);
    assert WellPlaced(LoadArg(idx));
    WellPlacedConcat(LoadArg(idx), CompOp(op, c) + [JumpTo(id)]);
    ArgWordsLoadable(idx);
    LoadArgLoads(idx);
    LoadsOkConcat(LoadArg(idx), CompOp(op, c) + [JumpTo(id)]);
  }

  lemma LoadArgLoads(idx: int)
    ensures LoadsOk(LoadArg(idx)) <==> LoadOk(LoArg(idx)) && LoadOk(HiArg(idx))
  {
    var l := LoadArg(idx);
    assert l[0] == Stmt(LdAbs, LoArg(idx)) && l[2] == Stmt(LdAbs, HiArg(idx));
  }

  lemma {:induction false} AtomBlocksPlaced(atoms: seq<Atom>, end: Word)
    requires GoodAtoms(atoms)
    ensures WellPlaced(Concat(AtomBlocks(atoms, end)))
    ensures LoadsOk(Concat(AtomBlocks(atoms, end))) <==> AtomsInData(atoms)
  {
    if atoms != [] {
      var a := atoms[0];
      var first, rest := ArgComp(a.op, a.arg, a.c, end), AtomBlocks(atoms[1..], end);
      ConcatCons(first, rest);
      ArgCompPlaced(a.op, a.arg, a.c, end);
      AtomBlocksPlaced(atoms[1..], end);
      WellPlacedConcat(first, Concat(rest));
      LoadsOkConcat(first, Concat(rest));
      AtomsInDataSplits(atoms);
    }
  }

  lemma AtomsInDataSplits(atoms: seq<Atom>)
    requires atoms != [] && GoodAtoms(atoms)
    ensures AtomsInData(atoms) <==> ArgInData(atoms[0].arg) && AtomsInData(atoms[1..])
  {
    if ArgInData(atoms[0].arg) && AtomsInData(atoms[1..]) {
      forall i | 0 <= i < |atoms| ensures atoms[i].Atom? && ArgInData(atoms[i].arg) {
        if i > 0 { assert atoms[i] == atoms[1..][i - 1]; }
      }
    }
  }

  predicate GroupsInData(groups: seq<seq<Atom>>) {
    forall i :: 0 <= i < |groups| ==> AtomsInData(groups[i])
  }

  lemma GroupsInDataSplits(groups: seq<seq<Atom>>)
    requires groups != []
    ensures GroupsInData(groups) <==> AtomsInData(groups[0]) && GroupsInData(groups[1..])
  {
    if AtomsInData(groups[0]) && GroupsInData(groups[1..]) {
      forall i | 0 <= i < |groups| ensures AtomsInData(groups[i]) {
        if i > 0 { assert groups[i] == groups[1..][i - 1]; }
      }
    }
  }

  lemma {:induction false} GroupBlocksPlaced(groups: seq<seq<Atom>>, succ: Word, ends: seq<Word>)
    requires |ends| == |groups| && GoodGroups(groups)
    ensures WellPlaced(Concat(GroupBlocks(groups, succ, ends)))
    ensures LoadsOk(Concat(GroupBlocks(groups, succ, ends))) <==> GroupsInData(groups)
  {
    if groups != [] {
      GroupBlocksConcat(groups, succ, ends);
      var a, g := Concat(AtomBlocks(groups[0], ends[0])), GroupEndBlock(succ, ends[0]);
      var rest := Concat(GroupBlocks(groups[1..], succ, ends[1..]));
      AtomBlocksPlaced(groups[0], ends[0]);
      GroupBlocksPlaced(groups[1..], succ, ends[1..]);
      WellPlacedConcat(a, g);
      WellPlacedConcat(a + g, rest);
      LoadsOkConcat(a, g);
      LoadsOkConcat(a + g, rest);
      GroupsInDataSplits(groups);
    }
  }

  // Well-placed code closed by a RET, so that no branch leads past the end.
  predicate Closed(c: Code) { c != [] && c[|c| - 1].code == Ret && WellPlaced(c[..|c| - 1]) }

  lemma ClosedConcat(a: Code, b: Code)
    requires WellPlaced(a) && Closed(b)
    ensures Closed(a + b)
  {
    WellPlacedConcat(a, b[..|b| - 1]);
    assert (a + b)[..|a + b| - 1] == a + b[..|b| - 1];
  }

  lemma ClosedIsPlaced(c: Code)
    requires Closed(c)
    ensures WellPlaced(c)
  {
    var last := [c[|c| - 1]];
    assert WellPlaced(last);
    WellPlacedConcat(c[..|c| - 1], last);
    assert c == c[..|c| - 1] + last;
  }

  lemma ReturnSectionPlaced(id: Word, w: Word)
    ensures var c := Concat(ReturnSection(id, w)); Closed(c) && LoadsOk(c)
  {
    ConcatCons([LabelAt(id)], [[Stmt(Ret, w)]]);
    ConcatCons([Stmt(Ret, w)], []);
    assert [[LabelAt(id)]] + [[Stmt(Ret, w)]] == ReturnSection(id, w) && [[Stmt(Ret, w)]] + [] == [[Stmt(Ret, w)]];
  }

  lemma SectionEndPlaced(w: Word, succ: Word)
    ensures var tail := [Stmt(Ret, w)] + SuccessBlock(succ); Closed(tail) && LoadsOk(tail)
  {
  }

  lemma FilterSectionPlaced(id: Word, groups: seq<seq<Atom>>, succ: Word, ends: seq<Word>, w: Word)
    requires |ends| == |groups| && GoodGroups(groups)
    ensures var c := Concat(FilterSection(id, groups, succ, ends, w));
            Closed(c) && (LoadsOk(c) <==> GroupsInData(groups))
  {
    FilterSectionConcat(id, groups, succ, ends, w);
    var g, tail := Concat(GroupBlocks(groups, succ, ends)), [Stmt(Ret, w)] + SuccessBlock(succ);
    GroupBlocksPlaced(groups, succ, ends);
    SectionEndPlaced(w, succ);
    ClosedConcat(g, tail);
    LoadsOkConcat(g, tail);
    ClosedConcat([LabelAt(id)], g + tail);
    LoadsOkConcat([LabelAt(id)], g + tail);
  }

  lemma SectionPlaced(id: Word, blocks: seq<Code>, body: Body, a: Action)
    requires SectionFor(id, blocks, body, a)
    ensures Closed(Concat(blocks))
    ensures LoadsOk(Concat(blocks)) <==> BodyInData(body)
  {
    match body
    case Block(r) => ReturnSectionPlaced(id, RetWord(r, a).value);
    case Filter(groups, r) =>
      var w := OtherwiseWord(r, a).value;
      var succ: Word, ends: seq<Word> :| |ends| == |groups| && blocks == FilterSection(id, groups, succ, ends, w);
      FilterSectionPlaced(id, groups, succ, ends, w);
  }

  lemma {:induction false} SectionsPlaced(entries: seq<Entry>, rules: seq<NrRule>, a: Action)
    requires AllImplement(entries, rules, a)
    ensures SectionsCode(entries) == [] || Closed(SectionsCode(entries))
    ensures LoadsOk(SectionsCode(entries)) <==> RulesInData(rules)
  {
    if entries != [] {
      assert Implements(entries[0], rules[0], a);
      forall i | 0 <= i < |rules[1..]| ensures Implements(entries[1..][i], rules[1..][i], a) {
        assert Implements(entries[i + 1], rules[i + 1], a);
      }
      SectionsPlaced(entries[1..], rules[1..], a);
      RulesInDataSplits(rules);
      match entries[0]
      case AllowEntry(_) => assert SectionsCode(entries) == SectionsCode(entries[1..]);
      case SectionEntry(_, id, b) =>
        SectionPlaced(id, b, rules[0].body, a);
        ClosedIsPlaced(Concat(b));
        if SectionsCode(entries[1..]) == [] {
          assert SectionsCode(entries) == Concat(b);
        } else {
          ClosedConcat(Concat(b), SectionsCode(entries[1..]));
        }
        LoadsOkConcat(Concat(b), SectionsCode(entries[1..]));
    }
  }

  lemma RulesInDataSplits(rules: seq<NrRule>)
    requires rules != []
    ensures RulesInData(rules) <==> BodyInData(rules[0].body) && RulesInData(rules[1..])
  {
    if BodyInData(rules[0].body) && RulesInData(rules[1..]) {
      forall i | 0 <= i < |rules| ensures BodyInData(rules[i].body) {
        if i > 0 { assert rules[i] == rules[1..][i - 1]; }
      }
    }
  }

  lemma {:induction false} TablePlaced(entries: seq<Entry>)
    ensures WellPlaced(TableCode(entries)) && LoadsOk(TableCode(entries))
  {
    if entries != [] {
      var x := EntryCode(entries[0]);
      assert WellPlaced(x) && LoadsOk(x);
      TablePlaced(entries[1..]);
      WellPlacedConcat(x, TableCode(entries[1..]));
      LoadsOkConcat(x, TableCode(entries[1..]));
    }
  }

  lemma HeadPlaced(arch: Word, entries: seq<Entry>, default: Word)
    ensures Closed(HeadCode(arch, entries, default)) && LoadsOk(HeadCode(arch, entries, default))
  {
    var p, t, d := Prologue(arch), TableCode(entries), [Stmt(Ret, default)];
    assert WellPlaced(p) && LoadsOk(p) && Closed(d) && LoadsOk(d);
    TablePlaced(entries);
    ClosedConcat(t, d);
    LoadsOkConcat(t, d);
    ClosedConcat(p, t + d);
    LoadsOkConcat(p, t + d);
  }

  lemma ProgramPlaced(arch: Word, entries: seq<Entry>, rules: seq<NrRule>, a: Action, default: Word)
    requires AllImplement(entries, rules, a)
    ensures var c := ProgramCode(arch, entries, default);
            Closed(c) && (LoadsOk(c) <==> RulesInData(rules))
  {
    var head, sections := HeadCode(arch, entries, default), SectionsCode(entries);
    HeadPlaced(arch, entries, default);
    SectionsPlaced(entries, rules, a);
    LoadsOkConcat(head, sections);
    if sections == [] {
      assert head + sections == head;
    } else {
      ClosedIsPlaced(head);
      ClosedConcat(head, sections);
    }
  }

  // Closed labelled code becomes a valid program, provided its loads are good.
  lemma ResolvedIsValid(c: Code, count: nat)
    requires Resolvable(c, count) && Closed(c)
    ensures ValidProgram(Resolved(c)) <==> LoadsOk(c)
  {
    var p := Resolved(c);
    forall pc | 0 <= pc < |c| ensures ValidInstr(p, pc) <==> (c[pc].code == LdAbs ==> LoadOk(c[pc].k)) {
      ResolvedInstr(c, count, pc);
    }
    assert p[|c| - 1] == ResolvedAt(c, |c| - 1);
  }

  lemma ResolvedInstr(c: Code, count: nat, pc: nat)
    requires Resolvable(c, count) && Closed(c) && pc < |c|
    ensures ValidInstr(Resolved(c), pc) <==> (c[pc].code == LdAbs ==> LoadOk(c[pc].k))
  {
    assert ResolvableAt(c, count, pc);
    assert Resolved(c)[pc] == ResolvedAt(c, pc);
    if pc < |c| - 1 {
      assert Placed1(c[..|c| - 1], pc);
    } else {
      assert c[pc].code == Ret;
    }
  }

  /** The kernel accepts the program exactly when every argument index of the policy names a
      word of struct seccomp_data. */
  lemma ProgramValid(cfg: Config, entries: seq<Entry>, rules: seq<NrRule>, count: nat)
    requires AllImplement(entries, rules, cfg.action)
    requires Resolvable(ProgramCode(cfg.arch, entries, ActionWord(cfg.action)), count)
    ensures ValidProgram(Resolved(ProgramCode(cfg.arch, entries, ActionWord(cfg.action)))) <==> RulesInData(rules)
  {
    ProgramPlaced(cfg.arch, entries, rules, cfg.action, ActionWord(cfg.action));
    ResolvedIsValid(ProgramCode(cfg.arch, entries, ActionWord(cfg.action)), count);
  }
}
