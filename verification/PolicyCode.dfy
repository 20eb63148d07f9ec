/** The shape of the code a policy compiles to, and what each piece of it does when it runs.
    Nothing here depends on how label ids are chosen: it is enough that no label is placed
    twice, which jump resolution checks. */
module PolicyCode {
  import opened Common
  import opened BpfMachine
  import opened BpfEmit
  import opened BpfResolve
  import opened FilterBlocks
  import opened Policy

  // ----- conjunctions -----

  // The blocks of a conjunction whose atoms jump to `end` when they fail.
  function AtomBlocks(atoms: seq<Atom>, end: Word): seq<Code>
    requires GoodAtoms(atoms)
  {
    if atoms == [] then []
    else [ArgComp(atoms[0].op, atoms[0].arg, atoms[0].c, end)] + AtomBlocks(atoms[1..], end)
  }

  /** A conjunction falls through when all its atoms hold and leaves for `end` otherwise. */
  lemma {:induction false} AtomBlocksRun(atoms: seq<Atom>, end: Word, s: State, e: Env)
    requires AtomsInData(atoms)
    ensures var r := Exec(Concat(AtomBlocks(atoms, end)), 0, s, e);
            && ((r.Out? && r.skip == 0) || (r.Goto? && r.id == end))
            && (e.On? ==> (r.Out? <==> GroupTrue(atoms, e.d)))
  {
    if atoms != [] {
      var a := atoms[0];
      var first, rest := ArgComp(a.op, a.arg, a.c, end), Concat(AtomBlocks(atoms[1..], end));
      ConcatCons(first, AtomBlocks(atoms[1..], end));
      ArgCompExact(a.op, a.arg, a.c, end, s, e);
      var r := Exec(first, 0, s, e);
      ExecConcat(first, rest, 0, s, e);
      if r.Out? {
        AtomBlocksRun(atoms[1..], end, r.s, e);
      } else {
        AtomBlocksHaveNoLabel(atoms[1..], end, end);
        NoLabelFound(rest, end);
      }
      if e.On? {
        GroupTrueSplits(atoms, e.d);
      }
    }
  }

  lemma ConcatCons(c: Code, rest: seq<Code>)
    ensures Concat([c] + rest) == c + Concat(rest)
  {
    assert ([c] + rest)[1..] == rest;
  }

  lemma GroupTrueSplits(atoms: seq<Atom>, d: SeccompData)
    requires atoms != []
    ensures GroupTrue(atoms, d) <==> AtomTrue(atoms[0], d) && GroupTrue(atoms[1..], d)
  {
    if AtomTrue(atoms[0], d) && GroupTrue(atoms[1..], d) {
      forall i | 0 <= i < |atoms| ensures AtomTrue(atoms[i], d) {
        assert i > 0 ==> atoms[i] == atoms[1..][i - 1];
      }
    }
  }

  // ----- labels in code -----

  predicate HasLabel(c: Code, id: Word) { exists i :: 0 <= i < |c| && c[i] == LabelAt(id) }

  lemma HasLabelConcat(a: Code, b: Code, id: Word)
    ensures HasLabel(a + b, id) <==> HasLabel(a, id) || HasLabel(b, id)
  {
    if HasLabel(a, id) {
      var i :| 0 <= i < |a| && a[i] == LabelAt(id);
      assert (a + b)[i] == LabelAt(id);
    }
    if HasLabel(b, id) {
      var i :| 0 <= i < |b| && b[i] == LabelAt(id);
      assert (a + b)[|a| + i] == LabelAt(id);
    }
  }

  lemma NoLabelFound(c: Code, id: Word)
    requires !HasLabel(c, id)
    ensures FindLabel(c, id, 0) == |c|
  {
    FindLabelIsFirst(c, id, 0);
  }

  lemma ArgCompHasNoLabel(op: Op, idx: int, c: Quad, end: Word, id: Word)
    ensures !HasLabel(ArgComp(op, idx, c, end), id)
  {
    var code := ArgComp(op, idx, c, end);
    var l, m := LoadArg(idx), CompOp(op, c);
    assert forall i :: 0 <= i < |l| ==> l[i].code != Ja;
    CompOpHasNoJa(op, c);
    forall i | 0 <= i < |code| ensures code[i] != LabelAt(id) {
      assert code[i] == if i < 4 then l[i] else if i < 4 + |m| then m[i - 4] else JumpTo(end);
    }
  }

  lemma CompOpHasNoJa(op: Op, c: Quad)
    ensures forall i :: 0 <= i < |CompOp(op, c)| ==> CompOp(op, c)[i].code != Ja
  {
    var (k, c', jt, jf) := Plan(op, c);
    Comp64Shape(k, c', jt, jf);
  }

  lemma {:induction false} AtomBlocksHaveNoLabel(atoms: seq<Atom>, end: Word, id: Word)
    requires GoodAtoms(atoms)
    ensures !HasLabel(Concat(AtomBlocks(atoms, end)), id)
  {
    if atoms != [] {
      var a := atoms[0];
      var first, rest := ArgComp(a.op, a.arg, a.c, end), Concat(AtomBlocks(atoms[1..], end));
      ConcatCons(first, AtomBlocks(atoms[1..], end));
      ArgCompHasNoLabel(a.op, a.arg, a.c, end, id);
      AtomBlocksHaveNoLabel(atoms[1..], end, id);
      HasLabelConcat(first, rest, id);
    }
  }

  // ----- disjunctions -----

  // After a conjunction: success leaves for `succ`, failure arrives at `end`.
  function GroupEndBlock(succ: Word, end: Word): Code { [JumpTo(succ), LabelAt(end)] }

  function GroupBlocks(groups: seq<seq<Atom>>, succ: Word, ends: seq<Word>): seq<Code>
    requires |ends| == |groups| && GoodGroups(groups)
  {
    if groups == [] then []
    else AtomBlocks(groups[0], ends[0]) + [GroupEndBlock(succ, ends[0])] + GroupBlocks(groups[1..], succ, ends[1..])
  }

  lemma GroupEndBlockRuns(succ: Word, end: Word, s: State, e: Env)
    requires succ != end
    ensures Exec(GroupEndBlock(succ, end), 0, s, e) == Goto(succ, s)
    ensures Exec(GroupEndBlock(succ, end), 1, s, e) == Out(0, s)
    ensures FindLabel(GroupEndBlock(succ, end), end, 0) == 1
  {
    var c := GroupEndBlock(succ, end);
    assert Step(c[0], s, e) == Jump(succ, s);
    assert FindLabel(c, succ, 1) == 2;
    assert Step(c[1], s, e) == Fwd(0, s);
    assert FindLabel(c, end, 1) == 1;
  }

  // One conjunction with the block after it.
  lemma GroupRuns(atoms: seq<Atom>, succ: Word, end: Word, s: State, e: Env)
    requires AtomsInData(atoms) && succ != end
    ensures var r := Exec(Concat(AtomBlocks(atoms, end)) + GroupEndBlock(succ, end), 0, s, e);
            && ((r.Out? && r.skip == 0) || (r.Goto? && r.id == succ))
            && (e.On? ==> (r.Goto? <==> GroupTrue(atoms, e.d)))
  {
    var code, tail := Concat(AtomBlocks(atoms, end)), GroupEndBlock(succ, end);
    AtomBlocksRun(atoms, end, s, e);
    ExecConcat(code, tail, 0, s, e);
    var r := Exec(code, 0, s, e);
    GroupEndBlockRuns(succ, end, r.s, e);
  }

  lemma GroupBlocksConcat(groups: seq<seq<Atom>>, succ: Word, ends: seq<Word>)
    requires |ends| == |groups| && GoodGroups(groups) && groups != []
    ensures Concat(GroupBlocks(groups, succ, ends)) ==
            (Concat(AtomBlocks(groups[0], ends[0])) + GroupEndBlock(succ, ends[0]))
            + Concat(GroupBlocks(groups[1..], succ, ends[1..]))
  {
    var a, g, r := AtomBlocks(groups[0], ends[0]), GroupEndBlock(succ, ends[0]), GroupBlocks(groups[1..], succ,
        ends[1..]);
    ConcatAppend(a + [g], r);
    ConcatSnoc(a, g);
  }

  /** The labels placed by a disjunction are its group ends. */
  lemma {:induction false} GroupBlocksLabels(groups: seq<seq<Atom>>, succ: Word, ends: seq<Word>, id: Word)
    requires |ends| == |groups| && GoodGroups(groups)
    ensures HasLabel(Concat(GroupBlocks(groups, succ, ends)), id) <==> id in ends
  {
    if groups != [] {
      GroupBlocksConcat(groups, succ, ends);
      var a, g := Concat(AtomBlocks(groups[0], ends[0])), GroupEndBlock(succ, ends[0]);
      AtomBlocksHaveNoLabel(groups[0], ends[0], id);
      HasLabelConcat(a, g, id);
      HasLabelConcat(a + g, Concat(GroupBlocks(groups[1..], succ, ends[1..])), id);
      GroupBlocksLabels(groups[1..], succ, ends[1..], id);
      assert ends == [ends[0]] + ends[1..];
      assert g[1] == LabelAt(ends[0]);
    }
  }

  lemma SomeGroupSplits(groups: seq<seq<Atom>>, d: SeccompData)
    requires groups != []
    ensures SomeGroupTrue(groups, d) <==> GroupTrue(groups[0], d) || SomeGroupTrue(groups[1..], d)
  {
    if SomeGroupTrue(groups, d) && !GroupTrue(groups[0], d) {
      var i :| 0 <= i < |groups| && GroupTrue(groups[i], d);
      assert groups[i] == groups[1..][i - 1];
    }
    if SomeGroupTrue(groups[1..], d) {
      var i :| 0 <= i < |groups[1..]| && GroupTrue(groups[1..][i], d);
      assert groups[i + 1] == groups[1..][i];
    }
  }

  /** A disjunction leaves for `succ` when some conjunction holds and falls through otherwise. */
  lemma {:induction false} GroupBlocksRun(groups: seq<seq<Atom>>, succ: Word, ends: seq<Word>, s: State, e: Env)
    requires |ends| == |groups| && GoodGroups(groups) && succ !in ends
    requires forall i :: 0 <= i < |groups| ==> AtomsInData(groups[i])
    ensures var r := Exec(Concat(GroupBlocks(groups, succ, ends)), 0, s, e);
            && ((r.Out? && r.skip == 0) || (r.Goto? && r.id == succ))
            && (e.On? ==> (r.Goto? <==> SomeGroupTrue(groups, e.d)))
  {
    if groups != [] {
      GroupBlocksConcat(groups, succ, ends);
      var first := Concat(AtomBlocks(groups[0], ends[0])) + GroupEndBlock(succ, ends[0]);
      var rest := Concat(GroupBlocks(groups[1..], succ, ends[1..]));
      GroupRuns(groups[0], succ, ends[0], s, e);
      var r := Exec(first, 0, s, e);
      ExecConcat(first, rest, 0, s, e);
      if r.Out? {
        GroupBlocksRun(groups[1..], succ, ends[1..], r.s, e);
      } else {
        GroupBlocksLabels(groups[1..], succ, ends[1..], succ);
        NoLabelFound(rest, succ);
      }
      if e.On? {
        SomeGroupSplits(groups, e.d);
      }
    }
  }

  // ----- a section: the code of one rule -----

  function SuccessBlock(succ: Word): Code { [LabelAt(succ), Stmt(Ret, RET_ALLOW)] }

  function ReturnSection(id: Word, w: Word): seq<Code> { [[LabelAt(id)], [Stmt(Ret, w)]] }

  function FilterSection(id: Word, groups: seq<seq<Atom>>, succ: Word, ends: seq<Word>, w: Word): seq<Code>
    requires |ends| == |groups| && GoodGroups(groups)
  {
    [[LabelAt(id)]] + (GroupBlocks(groups, succ, ends) + ([[Stmt(Ret, w)]] + [SuccessBlock(succ)]))
  }

  /** The blocks are a section for this body, entered at label `id`. */
  ghost predicate SectionFor(id: Word, blocks: seq<Code>, body: Body, a: Action) {
    && GoodBody(body, a)
    && match body
       case AllowAll => false
       case Block(r) => blocks == ReturnSection(id, RetWord(r, a).value)
       case Filter(groups, r) =>
         exists succ: Word, ends: seq<Word> :: |ends| == |groups|
           && blocks == FilterSection(id, groups, succ, ends, OtherwiseWord(r, a).value)
  }

  lemma FilterSectionConcat(id: Word, groups: seq<seq<Atom>>, succ: Word, ends: seq<Word>, w: Word)
    requires |ends| == |groups| && GoodGroups(groups)
    ensures Concat(FilterSection(id, groups, succ, ends, w)) ==
            [LabelAt(id)] + (Concat(GroupBlocks(groups, succ, ends)) + ([Stmt(Ret, w)] + SuccessBlock(succ)))
  {
    var g, tail := GroupBlocks(groups, succ, ends), [[Stmt(Ret, w)]] + [SuccessBlock(succ)];
    ConcatCons([LabelAt(id)], g + tail);
    ConcatAppend(g, tail);
    ConcatCons([Stmt(Ret, w)], [SuccessBlock(succ)]);
    ConcatCons(SuccessBlock(succ), []);
    assert [SuccessBlock(succ)] + [] == [SuccessBlock(succ)];
  }

  lemma LabelRuns(id: Word, s: State, e: Env)
    ensures Exec([LabelAt(id)], 0, s, e) == Out(0, s)
  {
    assert Step([LabelAt(id)][0], s, e) == Fwd(0, s);
  }

  lemma RetRuns(w: Word, s: State, e: Env)
    ensures Exec([Stmt(Ret, w)], 0, s, e) == Halt(w)
  {
    assert Step([Stmt(Ret, w)][0], s, e) == Done(w);
  }

  // The end of a section: fall through to the return, or arrive at the success label.
  lemma SectionEndRuns(w: Word, succ: Word, s: State, e: Env)
    ensures var tail := [Stmt(Ret, w)] + SuccessBlock(succ);
            && Exec(tail, 0, s, e) == Halt(w)
            && FindLabel(tail, succ, 0) == 1
            && Exec(tail, 1, s, e) == Halt(RET_ALLOW)
  {
    var tail := [Stmt(Ret, w)] + SuccessBlock(succ);
    assert tail[0] == Stmt(Ret, w) && tail[1] == LabelAt(succ) && tail[2] == Stmt(Ret, RET_ALLOW);
    assert Step(tail[0], s, e) == Done(w);
    assert Step(tail[1], s, e) == Fwd(0, s) && Step(tail[2], s, e) == Done(RET_ALLOW);
    assert FindLabel(tail, succ, 1) == 1;
  }

  // A filter's success label is not one of its group ends, since no label is placed twice.
  lemma SuccessIsNoEnd(id: Word, groups: seq<seq<Atom>>, succ: Word, ends: seq<Word>, w: Word)
    requires |ends| == |groups| && GoodGroups(groups)
    requires DistinctLabels(Concat(FilterSection(id, groups, succ, ends, w)))
    ensures succ !in ends
  {
    FilterSectionConcat(id, groups, succ, ends, w);
    var code, g := Concat(FilterSection(id, groups, succ, ends, w)), Concat(GroupBlocks(groups, succ, ends));
    GroupBlocksLabels(groups, succ, ends, succ);
    var last := 1 + |g| + 1;
    assert code[last] == LabelAt(succ);
    forall i | 0 <= i < |g| ensures g[i] != LabelAt(succ) {
      assert code[1 + i] == g[i];
    }
  }

  lemma FilterSectionRuns(id: Word, groups: seq<seq<Atom>>, succ: Word, ends: seq<Word>, w: Word, s: State, e: Env)
    requires |ends| == |groups| && GoodGroups(groups) && succ !in ends
    requires forall i :: 0 <= i < |groups| ==> AtomsInData(groups[i])
    ensures var r := Exec(Concat(FilterSection(id, groups, succ, ends, w)), 0, s, e);
            r.Halt? && (e.On? ==> r.verdict == if SomeGroupTrue(groups, e.d) then RET_ALLOW else w)
  {
    FilterSectionConcat(id, groups, succ, ends, w);
    var g, tail := Concat(GroupBlocks(groups, succ, ends)), [Stmt(Ret, w)] + SuccessBlock(succ);
    LabelRuns(id, s, e);
    ExecConcat([LabelAt(id)], g + tail, 0, s, e);
    GroupBlocksRun(groups, succ, ends, s, e);
    ExecConcat(g, tail, 0, s, e);
    SectionEndRuns(w, succ, Exec(g, 0, s, e).s, e);
  }

  /** A section always returns, and on a system call it returns its rule's decision. */
  lemma SectionRuns(id: Word, blocks: seq<Code>, body: Body, a: Action, s: State, e: Env)
    requires SectionFor(id, blocks, body, a) && BodyInData(body)
    requires DistinctLabels(Concat(blocks))
    ensures var r := Exec(Concat(blocks), 0, s, e);
            r.Halt? && (e.On? ==> r.verdict == BodyVerdict(body, a, e.d))
  {
    match body
    case Block(r) =>
      var w := RetWord(r, a).value;
      ConcatCons([LabelAt(id)], [[Stmt(Ret, w)]]);
      ConcatCons([Stmt(Ret, w)], []);
      assert [[LabelAt(id)]] + [[Stmt(Ret, w)]] == blocks && [[Stmt(Ret, w)]] + [] == [[Stmt(Ret, w)]];
      LabelRuns(id, s, e);
      RetRuns(w, s, e);
      ExecConcat([LabelAt(id)], [Stmt(Ret, w)], 0, s, e);
    case Filter(groups, r) =>
      var w := OtherwiseWord(r, a).value;
      var succ: Word, ends: seq<Word> :| |ends| == |groups| && blocks == FilterSection(id, groups, succ, ends, w);
      SuccessIsNoEnd(id, groups, succ, ends, w);
      FilterSectionRuns(id, groups, succ, ends, w, s, e);
  }

  // ----- the jump table -----

  /** What the compiler keeps of one rule: a plain allow, or a jump to a section. */
  datatype Entry = AllowEntry(nr: Word) | SectionEntry(nr: Word, id: Word, blocks: seq<Code>)

  // bpf_allow_syscall, bpf_allow_syscall_args
  function EntryCode(x: Entry): Code {
    [Instr(Jeq, x.nr, 0, 1)] +
    match x case AllowEntry(_) => [Stmt(Ret, RET_ALLOW)] case SectionEntry(_, id, _) => [JumpTo(id)]
  }

  function TableCode(entries: seq<Entry>): Code {
    if entries == [] then [] else EntryCode(entries[0]) + TableCode(entries[1..])
  }

  function SectionsCode(entries: seq<Entry>): Code {
    if entries == [] then []
    else
      (match entries[0] case AllowEntry(_) => [] case SectionEntry(_, _, b) => Concat(b))
      + SectionsCode(entries[1..])
  }

  function FirstEntry(entries: seq<Entry>, nr: Word): (k: nat)
    ensures k <= |entries|
  {
    if entries == [] || entries[0].nr == nr then 0 else 1 + FirstEntry(entries[1..], nr)
  }

  // How the table is left when entry k matches.
  ghost predicate LeavesFor(r: Exit, entries: seq<Entry>, k: nat)
    requires k <= |entries|
  {
    if k == |entries| then r.Out? && r.skip == 0
    else
      match entries[k]
      case AllowEntry(_) => r == Halt(RET_ALLOW)
      case SectionEntry(_, id, _) => r.Goto? && r.id == id
  }

  lemma EntryRuns(x: Entry, s: State, e: Env)
    ensures var r := Exec(EntryCode(x), 0, s, e);
            var hit := Taken(Instr(Jeq, x.nr, 0, 1), s, e);
            if !hit then r == Out(0, AfterBranch(s, e))
            else match x case AllowEntry(_) => r == Halt(RET_ALLOW) case SectionEntry(_, id, _) => r.Goto? && r.id == id
  {
    var j := Instr(Jeq, x.nr, 0, 1);
    var tail := match x case AllowEntry(_) => [Stmt(Ret, RET_ALLOW)] case SectionEntry(_, id, _) => [JumpTo(id)];
    BranchRuns(j, s, e);
    ExecConcat([j], tail, 0, s, e);
    RetRuns(RET_ALLOW, AfterBranch(s, e), e);
    match x
    case AllowEntry(_) =>
    case SectionEntry(_, id, _) => FailureJumpRuns(id, 0, AfterBranch(s, e), e);
  }

  lemma EntryCodeHasNoLabel(x: Entry, id: Word)
    ensures !HasLabel(EntryCode(x), id)
  {
  }

  lemma {:induction false} TableCodeHasNoLabel(entries: seq<Entry>, id: Word)
    ensures !HasLabel(TableCode(entries), id)
  {
    if entries != [] {
      EntryCodeHasNoLabel(entries[0], id);
      TableCodeHasNoLabel(entries[1..], id);
      HasLabelConcat(EntryCode(entries[0]), TableCode(entries[1..]), id);
    }
  }

  /** The table leaves for its first matching entry; along an arbitrary path, for some entry. */
  lemma {:induction false} TableRuns(entries: seq<Entry>, s: State, e: Env) returns (k: nat)
    ensures k <= |entries| && LeavesFor(Exec(TableCode(entries), 0, s, e), entries, k)
    ensures e.On? ==> k == FirstEntry(entries, s.a)
  {
    if entries == [] {
      k := 0;
    } else {
      var first, rest := EntryCode(entries[0]), TableCode(entries[1..]);
      EntryRuns(entries[0], s, e);
      ExecConcat(first, rest, 0, s, e);
      if Taken(Instr(Jeq, entries[0].nr, 0, 1), s, e) {
        k := 0;
        match entries[0]
        case AllowEntry(_) =>
        case SectionEntry(_, id, _) =>
          TableCodeHasNoLabel(entries[1..], id);
          NoLabelFound(rest, id);
      } else {
        k := TableRuns(entries[1..], AfterBranch(s, e), e);
        k := k + 1;
      }
    }
  }

  // ----- the whole program, before its jumps are resolved -----

  // bpf_validate_arch and bpf_load_syscall_nr
  function Prologue(arch: Word): Code {
    [Stmt(LdAbs, 4), Instr(Jeq, arch, 1, 0), Stmt(Ret, RET_KILL), Stmt(LdAbs, 0)]
  }

  function HeadCode(arch: Word, entries: seq<Entry>, default: Word): Code {
    Prologue(arch) + (TableCode(entries) + [Stmt(Ret, default)])
  }

  function ProgramCode(arch: Word, entries: seq<Entry>, default: Word): Code {
    HeadCode(arch, entries, default) + SectionsCode(entries)
  }

  lemma PrologueRuns(arch: Word, s: State, e: Env)
    ensures var r := Exec(Prologue(arch), 0, s, e);
            && (r == Halt(RET_KILL) || (r.Out? && r.skip == 0))
            && (e.On? ==> (r.Halt? <==> e.d.arch != arch) && (r.Out? ==> r.s.a == e.d.nr))
  {
    var c := Prologue(arch);
    var s1 := s.(a := Loaded(e, 4));
    var s2 := AfterBranch(s1, e);
    var s3 := s2.(a := Loaded(e, 0));
    assert Step(c[0], s, e) == Fwd(0, s1);
    assert Step(c[1], s1, e) == Fwd(if Taken(c[1], s1, e) then 1 else 0, s2);
    assert Step(c[2], s2, e) == Done(RET_KILL);
    assert Step(c[3], s2, e) == Fwd(0, s3);
    assert Exec(c, 3, s2, e) == Out(0, s3);
    assert Exec(c, 2, s2, e) == Halt(RET_KILL);
  }

  // How the head is left: kill, the default action, or entry k's way.
  ghost predicate HeadLeaves(r: Exit, entries: seq<Entry>, k: nat, default: Word)
    requires k <= |entries|
  {
    if k == |entries| then r == Halt(default) else LeavesFor(r, entries, k)
  }

  lemma HeadRuns(arch: Word, entries: seq<Entry>, default: Word, s: State, e: Env) returns (k: nat)
    ensures k <= |entries|
    ensures var r := Exec(HeadCode(arch, entries, default), 0, s, e);
            if e.On? && e.d.arch != arch then r == Halt(RET_KILL)
            else (e.AnyPath? && r == Halt(RET_KILL)) || HeadLeaves(r, entries, k, default)
    ensures e.On? && e.d.arch == arch ==> k == FirstEntry(entries, e.d.nr)
  {
    var p, t, d := Prologue(arch), TableCode(entries), [Stmt(Ret, default)];
    PrologueRuns(arch, s, e);
    ExecConcat(p, t + d, 0, s, e);
    var r := Exec(p, 0, s, e);
    k := 0;
    if r.Out? {
      k := TableRuns(entries, r.s, e);
      ExecConcat(t, d, 0, r.s, e);
      var r2 := Exec(t, 0, r.s, e);
      if k == |entries| {
        RetRuns(default, r2.s, e);
      } else if entries[k].SectionEntry? {
        assert !HasLabel(d, entries[k].id);
        NoLabelFound(d, entries[k].id);
      }
    }
  }

  // ----- sections inside the program -----

  // Section k lies in the sections' code between two stretches.
  lemma {:induction false} SectionInside(entries: seq<Entry>, k: nat) returns (pre: Code, post: Code)
    requires k < |entries| && entries[k].SectionEntry?
    ensures SectionsCode(entries) == pre + (Concat(entries[k].blocks) + post)
    decreases k
  {
    var here := match entries[0] case AllowEntry(_) => [] case SectionEntry(_, _, b) => Concat(b);
    if k == 0 {
      pre, post := [], SectionsCode(entries[1..]);
    } else {
      pre, post := SectionInside(entries[1..], k - 1);
      assert entries[1..][k - 1] == entries[k];
      assert here + (pre + (Concat(entries[k].blocks) + post)) == (here + pre) + (Concat(entries[k].blocks) + post);
      pre := here + pre;
    }
  }

  lemma DistinctInside(a: Code, b: Code, c: Code)
    requires DistinctLabels(a + (b + c))
    ensures DistinctLabels(b)
  {
    var p := a + (b + c);
    assert forall i :: 0 <= i < |b| ==> p[|a| + i] == b[i];
  }

  // The first place of a label that opens b, in code where no label is placed twice.
  lemma LabelOpens(a: Code, b: Code, id: Word)
    requires b != [] && b[0] == LabelAt(id) && DistinctLabels(a + b)
    ensures FindLabel(a + b, id, 0) == |a|
  {
    var p := a + b;
    FindLabelIsFirst(p, id, 0);
    assert p[|a|] == LabelAt(id) && IsLabel(p[|a|]);
  }

  lemma SectionOpens(id: Word, blocks: seq<Code>, body: Body, a: Action)
    requires SectionFor(id, blocks, body, a)
    ensures Concat(blocks) != [] && Concat(blocks)[0] == LabelAt(id)
  {
    match body
    case Block(r) =>
    case Filter(groups, r) =>
      var w := OtherwiseWord(r, a).value;
      var succ: Word, ends: seq<Word> :| |ends| == |groups| && blocks == FilterSection(id, groups, succ, ends, w);
      FilterSectionConcat(id, groups, succ, ends, w);
  }

  // Entering b, which lies between two stretches of code, at the label that opens it.
  lemma LabelEnters(a: Code, b: Code, c: Code, id: Word, s: State, e: Env)
    requires b != [] && b[0] == LabelAt(id) && DistinctLabels(a + (b + c)) && Exec(b, 0, s, e).Halt?
    ensures Resume(Goto(id, s), a + (b + c), e) == Exec(b, 0, s, e)
  {
    LabelOpens(a, b + c, id);
    ExecTail(a, b + c, |a|, s, e);
    ExecConcat(b, c, 0, s, e);
  }

  /** A jump to a section's label, taken from before the sections, runs that section. */
  lemma SectionReached(entries: seq<Entry>, k: nat, body: Body, a: Action, s: State, e: Env)
    requires k < |entries| && entries[k].SectionEntry?
    requires SectionFor(entries[k].id, entries[k].blocks, body, a) && BodyInData(body)
    requires DistinctLabels(SectionsCode(entries))
    ensures var r := Resume(Goto(entries[k].id, s), SectionsCode(entries), e);
            r.Halt? && (e.On? ==> r.verdict == BodyVerdict(body, a, e.d))
  {
    var id, blocks := entries[k].id, entries[k].blocks;
    var code := Concat(blocks);
    var pre, post := SectionInside(entries, k);
    SectionOpens(id, blocks, body, a);
    DistinctInside(pre, code, post);
    SectionRuns(id, blocks, body, a, s, e);
    LabelEnters(pre, code, post, id, s, e);
  }
}
