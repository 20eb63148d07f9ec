/** Exactly which policies the compiler accepts, and which make it read outside its label table, both
    read off the policy alone. */
module PolicyAccept {
  import opened Common
  import opened BpfMachine
  import opened BpfEmit
  import opened BpfResolve
  import opened FilterBlocks
  import opened Policy
  import opened PolicyCode
  import opened PolicyLabels
  import opened PolicyValid
  import opened PolicyCompiler
  import opened PolicyTable

  // ----- conditions on a policy -----

  // A line that is refused by itself is none of these.
  predicate LineOk(cfg: Config, line: Line) {
    match line
    case Ignored => true
    case Rule(name, body) =>
      if LookupSyscall(cfg.table, name).0 < 0 then cfg.allowLogging else GoodBody(body, cfg.action)
    case _ => false
  }

  predicate LinesOk(cfg: Config, lines: seq<Line>) { forall i :: 0 <= i < |lines| ==> LineOk(cfg, lines[i]) }

  // No rule defines a system call of `seen`, or one that an earlier rule defines.
  predicate DefinedOnce(table: seq<Syscall>, lines: seq<Line>, seen: set<nat>) {
    if lines == [] then true
    else match IndexOn(table, lines[0])
      case None => DefinedOnce(table, lines[1..], seen)
      case Some(ind) => ind !in seen && DefinedOnce(table, lines[1..], seen + {ind})
  }

  /** Lines that compile, given room for their labels. */
  predicate Compilable(cfg: Config, lines: seq<Line>, seen: set<nat>) {
    LinesOk(cfg, lines) && (cfg.allowDuplicates || DefinedOnce(cfg.table, lines, seen))
  }

  function AtomsSize(atoms: seq<Atom>): nat
    requires GoodAtoms(atoms)
  {
    if atoms == [] then 0 else ArgCompLen(atoms[0].op, atoms[0].c) + AtomsSize(atoms[1..])
  }

  function GroupsSize(groups: seq<seq<Atom>>): nat
    requires GoodGroups(groups)
  {
    if groups == [] then 0 else AtomsSize(groups[0]) + 2 + GroupsSize(groups[1..])
  }

  function BodySize(body: Body, a: Action): nat
    requires GoodBody(body, a)
  {
    match body
    case AllowAll => 0
    case Block(_) => 2
    case Filter(groups, _) => 1 + GroupsSize(groups) + 3
  }

  /** The number of instructions for these rules. */
  ghost function RulesSize(rules: seq<NrRule>, a: Action): nat
    requires GoodRules(rules, a)
  {
    if rules == [] then 0
    else
      assert forall i :: 0 <= i < |rules[1..]| ==> rules[1..][i] == rules[i + 1];
      2 + BodySize(rules[0].body, a) + RulesSize(rules[1..], a)
  }

  // A policy without includes whose lines are in order and whose program is not too long.
  ghost predicate InOrder(cfg: Config, ls: seq<Line>) {
    Compilable(cfg, ls, {}) && (cfg.action == Log ==> cfg.allowLogging) && FitsKernel(cfg, ls)
  }

  ghost predicate FitsKernel(cfg: Config, ls: seq<Line>) {
    var rules := Allowlists(cfg) + RulesOf(cfg.table, ls);
    GoodRules(rules, cfg.action) && 5 + RulesSize(rules, cfg.action) <= MAX_INSNS
  }

  // No label comes up twice, and all fit the table.
  predicate LabelsFit(table: seq<Syscall>, ls: seq<Line>) {
    Fresh(Texts(table, ls)) && |Texts(table, ls)| <= LABELS_MAX
  }

  // Label k has no place in the table, and no label comes up twice behind it.
  predicate Overflow(texts: seq<string>, marks: seq<bool>, k: nat) {
    k < |marks| && k < |texts| && marks[k] && NoDup(texts[k + 1..])
  }

  ghost predicate SomeOverflow(texts: seq<string>, marks: seq<bool>) { exists k :: Overflow(texts, marks, k) }

  // Every label the compiler insists on finds room, and some entry label does not.
  ghost predicate LabelsOverflow(table: seq<Syscall>, ls: seq<Line>) {
    TableAfter(table, ls, []).Some? && SomeOverflow(Texts(table, ls), Marks(table, ls, []))
  }

  ghost predicate Acceptable(cfg: Config, files: Files, lines: seq<Line>) {
    && Splice(files, lines).Some?
    && var ls := Splice(files, lines).value; InOrder(cfg, ls) && LabelsFit(cfg.table, ls)
  }

  ghost predicate Overflowing(cfg: Config, files: Files, lines: seq<Line>) {
    && Splice(files, lines).Some?
    && var ls := Splice(files, lines).value; InOrder(cfg, ls) && LabelsOverflow(cfg.table, ls)
  }

  // ----- lengths -----

  lemma {:induction false} AtomsLength(atoms: seq<Atom>, end: Word)
    requires GoodAtoms(atoms)
    ensures |Concat(AtomBlocks(atoms, end))| == AtomsSize(atoms)
  {
    if atoms != [] {
      var a := atoms[0];
      ConcatCons(ArgComp(a.op, a.arg, a.c, end), AtomBlocks(atoms[1..], end));
      AtomsLength(atoms[1..], end);
      hide ArgComp, ArgCompLen;
      ArgCompLength(a.op, a.arg, a.c, end);
    }
  }

  lemma {:induction false} GroupsLength(groups: seq<seq<Atom>>, succ: Word, ends: seq<Word>)
    requires |ends| == |groups| && GoodGroups(groups)
    ensures |Concat(GroupBlocks(groups, succ, ends))| == GroupsSize(groups)
  {
    if groups != [] {
      GroupBlocksConcat(groups, succ, ends);
      AtomsLength(groups[0], ends[0]);
      GroupsLength(groups[1..], succ, ends[1..]);
    }
  }

  lemma SectionLength(id: Word, blocks: seq<Code>, body: Body, a: Action)
    requires SectionFor(id, blocks, body, a)
    ensures |Concat(blocks)| == BodySize(body, a)
  {
    match body
    case Block(r) =>
      ConcatCons([LabelAt(id)], [[Stmt(Ret, RetWord(r, a).value)]]);
      ConcatCons([Stmt(Ret, RetWord(r, a).value)], []);
      assert blocks == [[LabelAt(id)]] + ([[Stmt(Ret, RetWord(r, a).value)]] + []);
    case Filter(groups, r) =>
      var w := OtherwiseWord(r, a).value;
      var succ: Word, ends: seq<Word> :| |ends| == |groups| && blocks == FilterSection(id, groups, succ, ends, w);
      FilterSectionConcat(id, groups, succ, ends, w);
      GroupsLength(groups, succ, ends);
  }

  lemma {:induction false} EntriesLength(entries: seq<Entry>, rules: seq<NrRule>, a: Action)
    requires AllImplement(entries, rules, a)
    ensures GoodRules(rules, a)
    ensures |TableCode(entries)| + |SectionsCode(entries)| == RulesSize(rules, a)
  {
    AllGood(entries, rules, a);
    if entries != [] {
      assert Implements(entries[0], rules[0], a);
      forall i | 0 <= i < |rules[1..]| ensures Implements(entries[1..][i], rules[1..][i], a) {
        assert Implements(entries[i + 1], rules[i + 1], a);
      }
      EntriesLength(entries[1..], rules[1..], a);
      hide BodySize, Concat, GoodBody, SectionFor;
      match entries[0]
      case AllowEntry(_) => AllowLength(rules[0].body, a);
      case SectionEntry(_, id, b) => SectionLength(id, b, rules[0].body, a);
    }
  }

  lemma AllowLength(body: Body, a: Action)
    requires body.AllowAll?
    ensures GoodBody(body, a) && BodySize(body, a) == 0
  {
  }

  // ----- which lines compile -----

  lemma RuleAsk(cfg: Config, b: Build, nr: int, ind: nat, name: string, body: Body)
    ensures var r, t := CompileRule(cfg, b, nr, ind, name, body), RuleTable(b.names, name, nr, body);
      && (r.Ok? <==> GoodBody(body, cfg.action) && t.Some?)
      && (r.Ok? ==> r.value.names == t.value && r.value.seen == b.seen + {ind})
  {
    if !body.AllowAll? {
      var (n1, found) := Lookup(b.names, name);
      SectionAsk(n1, nr, EntryId(found), body, cfg.action);
    }
    hide CompileSection, Ask, Lookup, InnerAsks;
  }

  lemma LinesOkSplit(cfg: Config, lines: seq<Line>)
    requires lines != []
    ensures LinesOk(cfg, lines) <==> LineOk(cfg, lines[0]) && LinesOk(cfg, lines[1..])
  {
    hide LineOk;
    assert forall i :: 0 < i < |lines| ==> lines[i] == lines[1..][i - 1];
  }

  /** Lines without includes compile exactly when they are compilable and the table has room. */
  lemma {:induction false} LinesCompile(cfg: Config, files: Files, lines: seq<Line>, level: nat, b: Build)
    requires NoIncludes(lines)
    ensures var r, t := CompileLines(cfg, files, lines, level, b, false), TableAfter(cfg.table, lines, b.names);
      && (r.Ok? <==> Compilable(cfg, lines, b.seen) && t.Some?)
      && (r.Ok? ==> r.value.names == t.value)
    decreases |lines|
  {
    hide CompileRule, GoodBody, LinesOk, RuleTable;
    if lines == [] {
      NoLinesOk(cfg);
    } else {
      LinesOkSplit(cfg, lines);
      match lines[0] {
        case Ignored => LinesCompile(cfg, files, lines[1..], level, b);
        case Rule(name, body) => RuleLineCompiles(cfg, files, lines, level, b);
        case _ =>
      }
    }
  }

  lemma NoLinesOk(cfg: Config)
    ensures LinesOk(cfg, [])
  {
  }

  lemma {:induction false} RuleLineCompiles(cfg: Config, files: Files, lines: seq<Line>, level: nat, b: Build)
    requires lines != [] && lines[0].Rule? && NoIncludes(lines)
    ensures var r, t := CompileLines(cfg, files, lines, level, b, false), TableAfter(cfg.table, lines, b.names);
      && (r.Ok? <==> Compilable(cfg, lines, b.seen) && t.Some?)
      && (r.Ok? ==> r.value.names == t.value)
    decreases |lines|, 0
  {
    hide CompileRule, GoodBody, LinesOk, RuleTable;
    var rest, name, body := lines[1..], lines[0].name, lines[0].body;
    LinesOkSplit(cfg, lines);
    var (nr, ind) := LookupSyscall(cfg.table, name);
    if nr < 0 {
      LinesCompile(cfg, files, rest, level, b);
    } else {
      RuleAsk(cfg, b, nr, ind, name, body);
      var r := CompileRule(cfg, b, nr, ind, name, body);
      if r.Ok? {
        if ind in b.seen && !cfg.allowDuplicates {
          RedefinedFails(cfg, files, rest, level, r.value);
        } else {
          LinesCompile(cfg, files, rest, level, r.value);
        }
      }
    }
  }

  /** Unless duplicates are permitted, lines that compile define no system call twice, and none that
      was defined before, however the lines are spread over files. */
  lemma NoDuplicates(cfg: Config, files: Files, lines: seq<Line>, level: nat, b: Build)
    requires !cfg.allowDuplicates && NoIncludes(lines)
    requires CompileLines(cfg, files, lines, level, b, false).Ok?
    ensures forall i :: 0 <= i < |lines| && IndexOn(cfg.table, lines[i]).Some? ==>
              IndexOn(cfg.table, lines[i]).value !in b.seen
    ensures forall i, j :: 0 <= i < j < |lines| && IndexOn(cfg.table, lines[i]).Some? ==>
              IndexOn(cfg.table, lines[i]) != IndexOn(cfg.table, lines[j])
  {
    LinesCompile(cfg, files, lines, level, b);
    hide CompileLines, LinesOk, TableAfter;
    OncePairwise(cfg.table, lines, b.seen);
  }

  lemma {:induction false} OncePairwise(table: seq<Syscall>, lines: seq<Line>, seen: set<nat>)
    requires DefinedOnce(table, lines, seen)
    ensures forall i :: 0 <= i < |lines| && IndexOn(table, lines[i]).Some? ==> IndexOn(table, lines[i]).value !in seen
    ensures forall i, j :: 0 <= i < j < |lines| && IndexOn(table, lines[i]).Some? ==>
              IndexOn(table, lines[i]) != IndexOn(table, lines[j])
  {
    hide IndexOn;
    if lines != [] {
      assert forall i :: 0 < i < |lines| ==> lines[i] == lines[1..][i - 1];
      match IndexOn(table, lines[0])
      case None => OncePairwise(table, lines[1..], seen);
      case Some(ind) => OncePairwise(table, lines[1..], seen + {ind});
    }
  }

  // ----- the labels of a build -----

  ghost predicate BuildOk(b: Build, texts: seq<string>, marks: seq<bool>) {
    SelfContained(b.entries) && Tied(b.names, LabelIds(SectionsCode(b.entries)), texts, marks)
  }

  lemma {:induction false} SectionsSnoc(entries: seq<Entry>, x: Entry)
    ensures SectionsCode(entries + [x]) == SectionsCode(entries) + (if x.SectionEntry? then Concat(x.blocks) else [])
  {
    if entries == [] {
      assert [x][1..] == [] && [] + [x] == [x];
    } else {
      assert (entries + [x])[0] == entries[0] && (entries + [x])[1..] == entries[1..] + [x];
      SectionsSnoc(entries[1..], x);
    }
  }

  lemma SelfContainedSnoc(entries: seq<Entry>, x: Entry)
    requires SelfContained(entries)
    requires x.SectionEntry? ==> JumpsForward(Concat(x.blocks), []) && x.id in LabelIds(Concat(x.blocks))
    ensures SelfContained(entries + [x])
  {
    hide JumpsForward, LabelIds, Concat;
  }

  // What a compiled section places behind its entry label.
  lemma SectionNamed(names: Names, nr: int, id: Word, body: Body, a: Action) returns (inner: seq<Word>)
    requires !body.AllowAll? && CompileSection(names, nr, id, body, a).Ok?
    ensures var (n, blocks) := CompileSection(names, nr, id, body, a).value;
      && LabelIds(Concat(blocks)) == [id] + inner && JumpsForward(Concat(blocks), [])
      && AllNamed(n, inner, InnerTexts(nr, body)) && GrownBy(names, n, InnerTexts(nr, body))
  {
    SectionCompiled(names, nr, id, body, a);
    SectionGrows(names, nr, id, body, a);
    hide LabelIds, JumpsForward, Concat, GroupEndName, SuccessName, GrownBy;
    match body
    case Block(ret) =>
      ReturnSectionLabels(id, RetWord(ret, a).value);
      inner := [];
    case Filter(groups, ret) =>
      var (n1, blocks) := CompileGroups(names, nr, 0, groups).value;
      var (n2, succ) := GetLabel(n1, SuccessName(nr)).value;
      NameLengths(nr, 0);
      LookupGrows(n1, SuccessName(nr));
      GetLabelStable(n1, SuccessName(nr), n2);
      FoundNamed(n2, SuccessName(nr), succ);
      var ends := GroupsCompiled(names, nr, 0, groups, succ, n2);
      FilterSectionLabels(id, groups, succ, ends, OtherwiseWord(ret, a).value);
      hide FilterSection, GroupBlocks, GetLabel, Named;
      inner := ends + [succ];
  }

  lemma SectionGrows(names: Names, nr: int, id: Word, body: Body, a: Action)
    requires !body.AllowAll? && CompileSection(names, nr, id, body, a).Ok?
    ensures GrownBy(names, CompileSection(names, nr, id, body, a).value.0, InnerTexts(nr, body))
  {
    SectionAsk(names, nr, id, body, a);
    InnerAsksIn(nr, body);
    hide CompileSection, InnerAsks, InnerTexts, Ask;
    AskGrows(names, names, InnerAsks(nr, body), InnerTexts(nr, body));
  }

  // A section's labels join those placed before.
  lemma SectionTied(names: Names, ids: seq<Word>, texts: seq<string>, marks: seq<bool>,
                    name: string, nr: int, body: Body, a: Action)
    requires Tied(names, ids, texts, marks) && !body.AllowAll?
    requires CompileSection(Lookup(names, name).0, nr, EntryId(Lookup(names, name).1), body, a).Ok?
    ensures var id := EntryId(Lookup(names, name).1);
      var (n, blocks) := CompileSection(Lookup(names, name).0, nr, id, body, a).value;
      && Tied(n, ids + LabelIds(Concat(blocks)),
              texts + RuleTexts(name, nr, body), marks + RuleMarks(names, name, nr, body))
      && JumpsForward(Concat(blocks), []) && id in LabelIds(Concat(blocks))
  {
    var (n1, found) := Lookup(names, name);
    var id, more := EntryId(found), InnerTexts(nr, body);
    TiedEntry(names, ids, texts, marks, name);
    InnerTextsShort(nr, body);
    hide Tied, Lookup, CompileSection, InnerTexts, AllNamed, GrownBy, AllShort, LabelIds, JumpsForward, Concat, Falses;
    var inner := SectionNamed(n1, nr, id, body, a);
    var n2 := CompileSection(n1, nr, id, body, a).value.0;
    TiedInner(n1, n2, ids + [id], texts + [name], marks + [found.None?], inner, more);
    Regroup(ids, id, inner);
    Regroup(texts, name, more);
    Regroup(marks, found.None?, Falses(|more|));
  }

  lemma RegroupAll<T>(a: seq<T>, b: seq<T>, c: seq<T>)
    ensures a + (b + c) == (a + b) + c
  {
  }

  lemma Regroup<T>(a: seq<T>, x: T, b: seq<T>)
    ensures a + [x] + b == a + ([x] + b)
  {
  }

  lemma RuleTied(cfg: Config, b: Build, nr: int, ind: nat, name: string, body: Body, texts: seq<string>,
                 marks: seq<bool>)
    requires BuildOk(b, texts, marks) && CompileRule(cfg, b, nr, ind, name, body).Ok?
    ensures BuildOk(CompileRule(cfg, b, nr, ind, name, body).value,
                    texts + RuleTexts(name, nr, body), marks + RuleMarks(b.names, name, nr, body))
  {
    hide LabelIds, JumpsForward, Concat, SectionsCode, SelfContained, Tied;
    var b1 := CompileRule(cfg, b, nr, ind, name, body).value;
    if body.AllowAll? {
      var x := AllowEntry(ToWord(nr));
      SectionsSnoc(b.entries, x);
      SelfContainedSnoc(b.entries, x);
      assert SectionsCode(b1.entries) == SectionsCode(b.entries);
      assert texts + [] == texts && marks + [] == marks;
    } else {
      var ids := LabelIds(SectionsCode(b.entries));
      var (n1, found) := Lookup(b.names, name);
      SectionTied(b.names, ids, texts, marks, name, nr, body, cfg.action);
      hide CompileSection, Lookup, RuleTexts, RuleMarks;
      var (n2, blocks) := CompileSection(n1, nr, EntryId(found), body, cfg.action).value;
      var x := SectionEntry(ToWord(nr), EntryId(found), blocks);
      SectionsSnoc(b.entries, x);
      SelfContainedSnoc(b.entries, x);
      LabelIdsConcat(SectionsCode(b.entries), Concat(blocks));
    }
  }

  // The labels of lines that compile carry the texts foretold, and have the places foretold.
  lemma {:induction false} LinesTied(cfg: Config, files: Files, lines: seq<Line>, level: nat, b: Build, redefined: bool,
                                     texts: seq<string>, marks: seq<bool>)
    requires NoIncludes(lines) && BuildOk(b, texts, marks)
    requires CompileLines(cfg, files, lines, level, b, redefined).Ok?
    ensures BuildOk(CompileLines(cfg, files, lines, level, b, redefined).value,
                    texts + Texts(cfg.table, lines), marks + Marks(cfg.table, lines, b.names))
    decreases |lines|
  {
    hide BuildOk, CompileRule, GoodBody, RuleTable, RuleTexts, RuleMarks;
    if lines == [] {
      assert texts + [] == texts && marks + [] == marks;
    } else {
      var rest := lines[1..];
      var said, put := LineTexts(cfg.table, lines[0]), LineMarks(cfg.table, lines[0], b.names);
      match lines[0] {
        case Ignored =>
          LinesTied(cfg, files, rest, level, b, redefined, texts, marks);
          assert said + Texts(cfg.table, rest) == Texts(cfg.table, rest);
          assert put + Marks(cfg.table, rest, b.names) == Marks(cfg.table, rest, b.names);
        case Rule(name, body) =>
          var (nr, ind) := LookupSyscall(cfg.table, name);
          if nr < 0 {
            LinesTied(cfg, files, rest, level, b, redefined, texts, marks);
            assert said + Texts(cfg.table, rest) == Texts(cfg.table, rest);
            assert put + Marks(cfg.table, rest, b.names) == Marks(cfg.table, rest, b.names);
          } else {
            RuleTied(cfg, b, nr, ind, name, body, texts, marks);
            RuleAsk(cfg, b, nr, ind, name, body);
            var b1 := CompileRule(cfg, b, nr, ind, name, body).value;
            LinesTied(cfg, files, rest, level, b1, redefined || (ind in b.seen && !cfg.allowDuplicates),
                      texts + said, marks + put);
            RegroupAll(texts, said, Texts(cfg.table, rest));
            RegroupAll(marks, put, Marks(cfg.table, rest, b1.names));
          }
      }
    }
  }

  // ----- what the ids decide -----

  lemma TiedAccepts(names: Names, ids: seq<Word>, texts: seq<string>, marks: seq<bool>)
    requires Tied(names, ids, texts, marks)
    ensures NoDup(ids) && AllBelow(ids, |names|) <==> Unmarked(marks) && Fresh(texts)
    ensures NoDup(ids) && AllBelow(ids, |names|) ==> |texts| <= LABELS_MAX
  {
    hide Fresh;
    if AllBelow(ids, |names|) && NoDup(ids) {
      BelowFits(ids, |names|);
    }
    hide NoDup, Stored;
    if AllBelow(ids, |names|) {
      assert UNRESOLVED !in ids;
    }
    if Unmarked(marks) {
      assert UNRESOLVED !in ids;
    }
  }

  function Below(n: nat): (r: set<Word>)
    requires n <= LABELS_MAX
    ensures |r| == n && forall i: Word :: i in r <==> i < n
  {
    if n == 0 then {} else Below(n - 1) + {n - 1}
  }

  lemma BelowFits(ids: seq<Word>, n: nat)
    requires NoDup(ids) && AllBelow(ids, n) && n <= LABELS_MAX
    ensures |ids| <= n
  {
    NoDupFits(ids, Below(n));
  }

  lemma TiedStrays(names: Names, ids: seq<Word>, texts: seq<string>, marks: seq<bool>)
    requires Tied(names, ids, texts, marks)
    ensures (exists k :: StrayId(ids, |names|, k)) <==> SomeOverflow(texts, marks)
  {
    if k :| StrayId(ids, |names|, k) {
      StrayOverflows(names, ids, texts, marks, k);
      assert Overflow(texts, marks, k);
    }
    if k :| Overflow(texts, marks, k) {
      var last := LastMark(marks, k);
      OverflowStrays(names, ids, texts, marks, k, last);
      assert StrayId(ids, |names|, last);
    }
  }

  lemma {:induction false} LastMark(marks: seq<bool>, k: nat) returns (last: nat)
    requires k < |marks| && marks[k]
    ensures k <= last < |marks| && marks[last] && forall i :: last < i < |marks| ==> !marks[i]
    decreases |marks| - k
  {
    if i :| k < i < |marks| && marks[i] {
      last := LastMark(marks, i);
    } else {
      last := k;
    }
  }

  lemma StrayOverflows(names: Names, ids: seq<Word>, texts: seq<string>, marks: seq<bool>, k: nat)
    requires Tied(names, ids, texts, marks) && StrayId(ids, |names|, k)
    ensures Overflow(texts, marks, k)
  {
    assert ids[k] == UNRESOLVED;
    var after, said := ids[k + 1..], texts[k + 1..];
    forall i | 0 <= i < |after| ensures after[i] == IndexOf(names, said[i], 0) {
      assert after[i] == ids[k + 1 + i];
    }
    forall i, j | 0 <= i < j < |said| ensures said[i] != said[j] {
      assert after[i] != after[j];
    }
  }

  lemma OverflowStrays(names: Names, ids: seq<Word>, texts: seq<string>, marks: seq<bool>, k: nat, last: nat)
    requires Tied(names, ids, texts, marks) && Overflow(texts, marks, k) && k <= last < |marks|
    requires marks[last] && forall i :: last < i < |marks| ==> !marks[i]
    ensures StrayId(ids, |names|, last)
  {
    var after, said := ids[last + 1..], texts[last + 1..];
    forall i | 0 <= i < |after| ensures after[i] < |names| && names[after[i]] == said[i] {
      assert after[i] == ids[last + 1 + i] != UNRESOLVED && ids[last] == UNRESOLVED;
    }
    forall i, j | 0 <= i < j < |after| ensures after[i] != after[j] {
      assert said[i] == texts[k + 1..][last - k + i] && said[j] == texts[k + 1..][last - k + j];
    }
  }

  // ----- room for few labels -----

  lemma RuleRoom(names: Names, name: string, nr: int, body: Body)
    requires |names| + |RuleTexts(name, nr, body)| <= LABELS_MAX
    ensures var t := RuleTable(names, name, nr, body);
      t.Some? && |t.value| <= |names| + |RuleTexts(name, nr, body)| && Unmarked(RuleMarks(names, name, nr, body))
  {
    if !body.AllowAll? {
      var n1, more := Lookup(names, name).0, InnerTexts(nr, body);
      InnerAsksIn(nr, body);
      hide InnerAsks, InnerTexts, Ask;
      AskGrows(n1, n1, InnerAsks(nr, body), more);
      GrownFits(n1, Ask(n1, InnerAsks(nr, body)).value, more);
    }
  }

  lemma GrownFits(base: Names, names: Names, texts: seq<string>)
    requires GrownBy(base, names, texts)
    ensures |names| <= |base| + |texts|
  {
    var added := names[|base|..];
    forall i, j | 0 <= i < j < |added| ensures added[i] != added[j] {
      assert added[i] == names[..|base| + j][|base| + i];
    }
    DistinctFits(added, texts);
  }

  lemma {:induction false} TextsRoom(table: seq<Syscall>, lines: seq<Line>, names: Names)
    requires |names| + |Texts(table, lines)| <= LABELS_MAX
    ensures TableAfter(table, lines, names).Some? && Unmarked(Marks(table, lines, names))
    decreases |lines|
  {
    hide RuleTable, RuleTexts, RuleMarks;
    if lines != [] {
      if Known(table, lines[0]) {
        RuleRoom(names, lines[0].name, LookupSyscall(table, lines[0].name).0, lines[0].body);
      }
      TextsRoom(table, lines[1..], LineTable(table, lines[0], names).value);
    }
  }

  // ----- the program -----

  lemma {:induction false} AllowsPlaceNothing(rules: seq<NrRule>, rest: seq<Entry>)
    requires SelfContained(rest)
    ensures SelfContained(AllowEntries(rules) + rest) && SectionsCode(AllowEntries(rules) + rest) == SectionsCode(rest)
  {
    if rules == [] {
      assert AllowEntries(rules) + rest == rest;
    } else {
      var all := AllowEntries(rules) + rest;
      assert all[0] == AllowEntry(rules[0].nr) && all[1..] == AllowEntries(rules[1..]) + rest;
      AllowsPlaceNothing(rules[1..], rest);
    }
  }

  // What jump resolution makes of the program of a build.
  lemma ProgramExactly(cfg: Config, b: Build, texts: seq<string>, marks: seq<bool>, rules: seq<NrRule>)
    requires BuildOk(b, texts, marks)
    requires AllImplement(AllowEntries(Allowlists(cfg)) + b.entries, rules, cfg.action)
    ensures GoodRules(rules, cfg.action)
    ensures var p := ProgramCode(cfg.arch, AllowEntries(Allowlists(cfg)) + b.entries, ActionWord(cfg.action));
      var short := 5 + RulesSize(rules, cfg.action) <= MAX_INSNS;
      && (Resolvable(p, |b.names|) <==> short && Unmarked(marks) && Fresh(texts))
      && (Resolvable(p, |b.names|) ==> |texts| <= LABELS_MAX)
      && (Strays(p, |b.names|) <==> short && SomeOverflow(texts, marks))
  {
    var entries := AllowEntries(Allowlists(cfg)) + b.entries;
    var p := ProgramCode(cfg.arch, entries, ActionWord(cfg.action));
    EntriesLength(entries, rules, cfg.action);
    assert |p| == 5 + |TableCode(entries)| + |SectionsCode(entries)|;
    hide LabelIds, JumpsForward, SelfContained, AllImplement, Allowlists, RulesSize, Tied, Resolvable, Strays, StrayId,
         SomeOverflow, Fresh, Unmarked, NoDup, AllBelow;
    AllowsPlaceNothing(Allowlists(cfg), b.entries);
    ProgramLabels(cfg.arch, entries, ActionWord(cfg.action));
    ForwardResolvable(p, |b.names|);
    ForwardStrays(p, |b.names|);
    TiedAccepts(b.names, LabelIds(SectionsCode(b.entries)), texts, marks);
    TiedStrays(b.names, LabelIds(SectionsCode(b.entries)), texts, marks);
  }

  // ----- main theorems -----

  // The rules of a policy whose lines compiled, and the entries that implement them.
  lemma Implemented(cfg: Config, files: Files, ls: seq<Line>)
    requires NoIncludes(ls) && CompileLines(cfg, files, ls, 0, EMPTY, false).Ok?
    ensures var b := CompileLines(cfg, files, ls, 0, EMPTY, false).value;
      AllImplement(AllowEntries(Allowlists(cfg)) + b.entries, Allowlists(cfg) + RulesOf(cfg.table, ls), cfg.action)
  {
    var b := CompileLines(cfg, files, ls, 0, EMPTY, false).value;
    LinesCompiled(cfg, files, ls, 0, EMPTY, false);
    assert b.entries[|EMPTY.entries|..] == b.entries;
    AllowEntriesImplement(Allowlists(cfg), cfg.action);
    hide CompileLines, RulesOf;
    AllImplementConcat(AllowEntries(Allowlists(cfg)), Allowlists(cfg), b.entries, RulesOf(cfg.table, ls), cfg.action);
  }

  lemma EmptyOk()
    ensures BuildOk(EMPTY, [], [])
  {
  }

  lemma JudgedIs(p: Code, count: nat)
    ensures Judged(p, count).Ok? <==> Resolvable(p, count)
    ensures Judged(p, count) == Err(ReadsOutside) <==> Strays(p, count)
  {
    StraysAreNotResolvable(p, count);
    hide Resolvable, Strays, Resolved;
  }

  // A policy without includes whose lines compile.
  lemma CompiledExactly(cfg: Config, files: Files, ls: seq<Line>)
    requires NoIncludes(ls) && CompileLines(cfg, files, ls, 0, EMPTY, false).Ok?
    requires cfg.action == Log ==> cfg.allowLogging
    ensures var texts, marks := Texts(cfg.table, ls), Marks(cfg.table, ls, []);
      && (CompileFilter(cfg, files, ls).Ok? <==> FitsKernel(cfg, ls) && Unmarked(marks) && Fresh(texts))
      && (CompileFilter(cfg, files, ls).Ok? ==> |texts| <= LABELS_MAX)
      && (CompileFilter(cfg, files, ls) == Err(ReadsOutside) <==> FitsKernel(cfg, ls) && SomeOverflow(texts, marks))
  {
    EmptyOk();
    hide BuildOk, Unmarked, Fresh, CompileLines, RulesSize, GoodRules, RulesOf, ProgramCode, Allowlists, AllImplement,
         SomeOverflow, Judged, Texts, Marks, Resolvable, Strays;
    var texts, marks := Texts(cfg.table, ls), Marks(cfg.table, ls, []);
    var b := CompileLines(cfg, files, ls, 0, EMPTY, false).value;
    LinesTied(cfg, files, ls, 0, EMPTY, false, [], []);
    assert [] + texts == texts && [] + marks == marks;
    Implemented(cfg, files, ls);
    ProgramExactly(cfg, b, texts, marks, Allowlists(cfg) + RulesOf(cfg.table, ls));
    JudgedIs(ProgramCode(cfg.arch, AllowEntries(Allowlists(cfg)) + b.entries, ActionWord(cfg.action)), |b.names|);
  }

  // The policy without includes.
  lemma SplicedExactly(cfg: Config, files: Files, ls: seq<Line>)
    requires NoIncludes(ls)
    ensures CompileFilter(cfg, files, ls).Ok? <==> InOrder(cfg, ls) && LabelsFit(cfg.table, ls)
    ensures CompileFilter(cfg, files, ls) == Err(ReadsOutside) <==> InOrder(cfg, ls) && LabelsOverflow(cfg.table, ls)
  {
    LinesCompile(cfg, files, ls, 0, EMPTY);
    hide Unmarked, Fresh, CompileLines, CompileFilter, Compilable, FitsKernel, TableAfter, SomeOverflow, Texts, Marks;
    if |Texts(cfg.table, ls)| <= LABELS_MAX {
      TextsRoom(cfg.table, ls, []);
    }
    if CompileLines(cfg, files, ls, 0, EMPTY, false).Ok? && (cfg.action == Log ==> cfg.allowLogging) {
      CompiledExactly(cfg, files, ls);
    } else {
      NotCompiled(cfg, files, ls);
    }
  }

  lemma NotCompiled(cfg: Config, files: Files, ls: seq<Line>)
    requires CompileLines(cfg, files, ls, 0, EMPTY, false).Err? || (cfg.action == Log && !cfg.allowLogging)
    ensures CompileFilter(cfg, files, ls).Err? && CompileFilter(cfg, files, ls) != Err(ReadsOutside)
  {
    hide CompileLines;
    LinesStayInside(cfg, files, ls, 0, EMPTY, false);
  }

  lemma StraysAreNotResolvable(p: Code, count: nat)
    ensures !(Resolvable(p, count) && Strays(p, count))
  {
    if Resolvable(p, count) {
      forall i | 0 <= i < |p| && IsLabel(p[i]) ensures p[i].k < count {
        StrayIsUnresolvable(p, count, i);
      }
    }
  }

  /** The compiler accepts exactly the acceptable policies: every include can be spliced, every
      line is well formed, no system call is defined twice without leave, no label comes up twice
      and all fit the table, and the program fits the kernel's limit. */
  lemma AcceptedExactly(cfg: Config, files: Files, lines: seq<Line>)
    ensures CompileFilter(cfg, files, lines).Ok? <==> Acceptable(cfg, files, lines)
  {
    OutcomeOfSplice(cfg, files, lines);
    hide CompileFilter, Splice, InOrder, LabelsFit, LabelsOverflow;
    if Splice(files, lines).Some? {
      SplicedExactly(cfg, files, Splice(files, lines).value);
    }
  }

  /** It reads outside its label table exactly for the overflowing policies: everything else is in
      order, the labels of all groups found room, but some entry label did not, and no label comes up
      twice behind that one. */
  lemma ReadsOutsideExactly(cfg: Config, files: Files, lines: seq<Line>)
    ensures CompileFilter(cfg, files, lines) == Err(ReadsOutside) <==> Overflowing(cfg, files, lines)
  {
    OutcomeOfSplice(cfg, files, lines);
    hide CompileFilter, Splice, InOrder, LabelsFit, LabelsOverflow;
    if Splice(files, lines).Some? {
      SplicedExactly(cfg, files, Splice(files, lines).value);
    }
  }

  // Splicing does not change whether a program results, or whether the table is left.
  lemma OutcomeOfSplice(cfg: Config, files: Files, lines: seq<Line>)
    ensures match Splice(files, lines)
      case None => CompileFilter(cfg, files, lines).Err? && CompileFilter(cfg, files, lines).why != ReadsOutside
      case Some(ls) =>
        && NoIncludes(ls)
        && (CompileFilter(cfg, files, lines).Ok? <==> CompileFilter(cfg, files, ls).Ok?)
        && (StaysInside(CompileFilter(cfg, files, lines)) <==> StaysInside(CompileFilter(cfg, files, ls)))
  {
    IncludeIsSplicing(cfg, files, lines, EMPTY, false);
    SpliceHasNoIncludes(files, lines);
    LinesStayInside(cfg, files, lines, 0, EMPTY, false);
    hide CompileLines, Judged, ProgramCode, Allowlists, Splice;
    if Splice(files, lines).Some? {
      LinesStayInside(cfg, files, Splice(files, lines).value, 0, EMPTY, false);
    }
  }

  // ----- only jump resolution leaves the table -----

  predicate StaysInside<T>(r: Result<T>) { r.Err? ==> r.why != ReadsOutside }

  lemma {:induction false} AtomsStayInside(names: Names, nr: int, grp: nat, atoms: seq<Atom>)
    ensures StaysInside(CompileAtoms(names, nr, grp, atoms))
    decreases |atoms|
  {
    hide Lookup, GroupEndName, ArgComp;
    if atoms != [] {
      var r := CompileAtom(names, nr, grp, atoms[0]);
      if r.Ok? {
        AtomsStayInside(r.value.0, nr, grp, atoms[1..]);
      }
    }
  }

  lemma {:induction false} GroupsStayInside(names: Names, nr: int, grp: nat, groups: seq<seq<Atom>>)
    ensures StaysInside(CompileGroups(names, nr, grp, groups))
    decreases |groups|
  {
    hide Lookup, GroupEndName, SuccessName, CompileAtoms;
    if groups != [] {
      AtomsStayInside(names, nr, grp, groups[0]);
      var r1 := CompileAtoms(names, nr, grp, groups[0]);
      if r1.Ok? {
        var n2 := Lookup(r1.value.0, SuccessName(nr)).0;
        GroupsStayInside(Lookup(n2, GroupEndName(nr, grp)).0, nr, grp + 1, groups[1..]);
      }
    }
  }

  lemma RuleStaysInside(cfg: Config, b: Build, nr: int, ind: nat, name: string, body: Body)
    ensures StaysInside(CompileRule(cfg, b, nr, ind, name, body))
  {
    hide Lookup, CompileGroups, SuccessName;
    if body.Filter? {
      GroupsStayInside(Lookup(b.names, name).0, nr, 0, body.groups);
    }
  }

  lemma {:induction false} LinesStayInside(cfg: Config, files: Files, lines: seq<Line>, level: nat, b: Build,
                                           redefined: bool)
    ensures StaysInside(CompileLines(cfg, files, lines, level, b, redefined))
    decreases if level == 0 then 1 else 0, |lines|
  {
    hide CompileRule;
    if lines != [] {
      var rest := lines[1..];
      match lines[0] {
        case Ignored => LinesStayInside(cfg, files, rest, level, b, redefined);
        case Include(path) =>
          if level == 0 && !ImplicitRelative(path) && path in files {
            LinesStayInside(cfg, files, files[path], level + 1, b, false);
            var r := CompileLines(cfg, files, files[path], level + 1, b, false);
            if r.Ok? {
              LinesStayInside(cfg, files, rest, level, r.value, redefined);
            }
          }
        case Rule(name, body) =>
          var (nr, ind) := LookupSyscall(cfg.table, name);
          if nr < 0 {
            LinesStayInside(cfg, files, rest, level, b, redefined);
          } else {
            RuleStaysInside(cfg, b, nr, ind, name, body);
            var r := CompileRule(cfg, b, nr, ind, name, body);
            if r.Ok? {
              LinesStayInside(cfg, files, rest, level, r.value, redefined || (ind in b.seen && !cfg.allowDuplicates));
            }
          }
        case _ =>
      }
    }
  }

  // ----- two sections for one system call -----

  lemma {:induction false} TextsHave(table: seq<Syscall>, lines: seq<Line>, i: nat)
    requires i < |lines|
    ensures forall s :: s in LineTexts(table, lines[i]) ==> s in Texts(table, lines)
    decreases i
  {
    hide LineTexts;
    if i > 0 {
      assert lines[1..][i - 1] == lines[i];
      TextsHave(table, lines[1..], i - 1);
    }
  }

  lemma RepeatIsNotFresh(texts: seq<string>, x: nat, y: nat)
    requires x < y < |texts| && texts[x] == texts[y] && |texts[x]| <= MAX_LABEL_LEN
    ensures !Fresh(texts)
  {
    assert Stored(texts[x]) == texts[y];
  }

  lemma {:induction false} TwiceInTexts(table: seq<Syscall>, lines: seq<Line>, i: nat, j: nat, s: string)
    requires i < j < |lines| && |s| <= MAX_LABEL_LEN
    requires s in LineTexts(table, lines[i]) && s in LineTexts(table, lines[j])
    ensures !Fresh(Texts(table, lines))
    decreases i
  {
    hide LineTexts, Stored;
    var here, rest := LineTexts(table, lines[0]), Texts(table, lines[1..]);
    assert lines[1..][j - 1] == lines[j];
    if i == 0 {
      TextsHave(table, lines[1..], j - 1);
      var x :| 0 <= x < |here| && here[x] == s;
      var y :| 0 <= y < |rest| && rest[y] == s;
      RepeatIsNotFresh(here + rest, x, |here| + y);
    } else {
      assert lines[1..][i - 1] == lines[i];
      TwiceInTexts(table, lines[1..], i - 1, j - 1, s);
      var x, y :| 0 <= x < y < |rest| && |rest[y]| <= MAX_LABEL_LEN && Stored(rest[x]) == rest[y];
      var all := here + rest;
      assert all[|here| + x] == rest[x] && all[|here| + y] == rest[y];
    }
  }

  /** Leave for duplicates covers plain allows only: two rules with sections for one system call
      place the same label twice, and the policy is not accepted. */
  lemma TwoSectionsRefused(cfg: Config, files: Files, lines: seq<Line>, i: nat, j: nat)
    requires NoIncludes(lines) && i < j < |lines|
    requires lines[i].Rule? && lines[j].Rule? && lines[i].name == lines[j].name && |lines[i].name| <= MAX_LABEL_LEN
    requires LookupSyscall(cfg.table, lines[i].name).0 >= 0 && !lines[i].body.AllowAll? && !lines[j].body.AllowAll?
    ensures CompileFilter(cfg, files, lines).Err?
  {
    var name, nr := lines[i].name, LookupSyscall(cfg.table, lines[i].name).0;
    assert name in RuleTexts(name, nr, lines[i].body) && name in RuleTexts(name, nr, lines[j].body);
    TwiceInTexts(cfg.table, lines, i, j, name);
    hide Texts, Fresh, CompileFilter, InOrder, LabelsOverflow;
    SplicedExactly(cfg, files, lines);
  }

  // ----- a policy that overflows the table -----

  const CALLS: nat := LABELS_MAX + 1

  // Two letters for each of the first 676 numbers.
  function CallName(i: nat): string
    requires i < CALLS
  {
    [(97 + i / 26) as char, (97 + i % 26) as char]
  }

  // The first n names.
  function CallNames(n: nat): (r: seq<string>)
    requires n <= CALLS
    ensures |r| == n && forall i :: 0 <= i < n ==> r[i] == CallName(i)
  {
    seq(n, i requires 0 <= i < n => CallName(i))
  }

  function CallTable(): (r: seq<Syscall>)
    ensures |r| == CALLS && forall i :: 0 <= i < CALLS ==> r[i] == Syscall(CallName(i), i)
  {
    seq(CALLS, i requires 0 <= i < CALLS => Syscall(CallName(i), i))
  }

  const Refusal: Body := Block(Errno(Some(1)))

  // One `return 1` for every system call from k on.
  function RefuseFrom(k: nat): seq<Line>
    requires k <= CALLS
    decreases CALLS - k
  {
    if k == CALLS then [] else [Rule(CallName(k), Refusal)] + RefuseFrom(k + 1)
  }

  function Plain(): Config { Config(0, CallTable(), Kill, false, false, false, false, [], []) }

  lemma NamesDiffer(i: nat, j: nat)
    requires i < CALLS && j < CALLS && i != j
    ensures CallName(i) != CallName(j)
  {
    assert CallName(i)[0] != CallName(j)[0] || CallName(i)[1] != CallName(j)[1] by {
      if CallName(i)[0] == CallName(j)[0] {
        assert i / 26 == j / 26;
      }
    }
  }

  lemma {:induction false} CallFound(i: nat, from: nat)
    requires from <= i < CALLS
    ensures LookupFrom(CallTable(), CallName(i), from) == (i, i)
    decreases i - from
  {
    hide CallName, CallTable;
    assert CallTable()[from] == Syscall(CallName(from), from);
    if from < i {
      NamesDiffer(i, from);
      CallFound(i, from + 1);
    }
  }

  // What one rule does to the table of the first k.
  lemma FillsOne(k: nat)
    requires k <= LABELS_MAX
    ensures var line := Rule(CallName(k), Refusal);
      && LineTexts(CallTable(), line) == [CallName(k)]
      && LineMarks(CallTable(), line, CallNames(k)) == [k == LABELS_MAX]
      && LineTable(CallTable(), line, CallNames(k)) == Some(CallNames(if k < LABELS_MAX then k + 1 else k))
  {
    CallFound(k, 0);
    NotYet(k);
    hide CallName, CallTable, LookupFrom, Lookup;
    assert Falses(0) == [];
    if k < LABELS_MAX {
      assert CallNames(k + 1) == CallNames(k) + [CallName(k)];
    }
  }

  // The rules from k on, met with the table the first k left.
  lemma {:induction false} FillsUp(k: nat)
    requires k <= LABELS_MAX
    ensures TableAfter(CallTable(), RefuseFrom(k), CallNames(k)).Some?
    ensures |Texts(CallTable(), RefuseFrom(k))| == CALLS - k
    ensures var m := Marks(CallTable(), RefuseFrom(k), CallNames(k)); |m| == CALLS - k && m[LABELS_MAX - k]
    decreases LABELS_MAX - k
  {
    hide CallName, CallNames, CallTable, LineTexts, LineMarks, LineTable;
    var lines := RefuseFrom(k);
    assert lines[0] == Rule(CallName(k), Refusal) && lines[1..] == RefuseFrom(k + 1);
    FillsOne(k);
    if k < LABELS_MAX {
      FillsUp(k + 1);
    }
  }

  lemma NotYet(k: nat)
    requires k <= LABELS_MAX
    ensures Lookup(CallNames(k), CallName(k)) ==
            if k < LABELS_MAX then (CallNames(k) + [CallName(k)], Some(k)) else (CallNames(k), None)
  {
    assert |CallName(k)| == 2;
    hide CallName;
    forall i | 0 <= i < k ensures CallNames(k)[i] != CallName(k) {
      NamesDiffer(i, k);
    }
    assert IndexOf(CallNames(k), CallName(k), 0) == k;
  }

  function Numbers(k: nat): (r: set<nat>)
    ensures forall i :: i in r ==> i < k
  {
    if k == 0 then {} else Numbers(k - 1) + {k - 1}
  }

  lemma {:induction false} AllRefused(k: nat)
    requires k <= CALLS
    ensures LinesOk(Plain(), RefuseFrom(k)) && DefinedOnce(CallTable(), RefuseFrom(k), Numbers(k))
    decreases CALLS - k
  {
    hide CallName, CallTable, LookupFrom;
    if k < CALLS {
      var lines := RefuseFrom(k);
      assert lines[0] == Rule(CallName(k), Refusal) && lines[1..] == RefuseFrom(k + 1);
      CallFound(k, 0);
      AllRefused(k + 1);
      LinesOkSplit(Plain(), lines);
    }
  }

  lemma {:induction false} RefusalRules(table: seq<Syscall>, lines: seq<Line>)
    requires forall i :: 0 <= i < |lines| ==> lines[i].Rule? && lines[i].body == Refusal
    ensures |RulesOf(table, lines)| <= |lines|
    ensures forall i :: 0 <= i < |RulesOf(table, lines)| ==> RulesOf(table, lines)[i].body == Refusal
  {
    if lines != [] {
      RefusalRules(table, lines[1..]);
      hide LookupFrom;
    }
  }

  lemma {:induction false} RefusalsSize(rules: seq<NrRule>)
    requires forall i :: 0 <= i < |rules| ==> rules[i].body == Refusal
    ensures GoodRules(rules, Kill) && RulesSize(rules, Kill) == 4 * |rules|
  {
    if rules != [] {
      RefusalsSize(rules[1..]);
    }
  }

  /** A policy of 513 rules, each returning an errno, is within every other limit and makes jump
      resolution read outside the label table. */
  lemma OverflowHappens()
    ensures CompileFilter(Plain(), map[], RefuseFrom(0)) == Err(ReadsOutside)
  {
    hide CallTable, CallName, RefuseFrom, CompileFilter, Texts, Marks, TableAfter, RulesOf, LinesOk, DefinedOnce,
         RulesSize, GoodRules;
    assert CallNames(0) == [];
    FillsUp(0);
    AllRefused(0);
    assert Numbers(0) == {};
    RefusalsFit();
    assert Texts(CallTable(), RefuseFrom(0))[CALLS..] == [];
    assert Overflow(Texts(CallTable(), RefuseFrom(0)), Marks(CallTable(), RefuseFrom(0), []), LABELS_MAX);
    OnlyRules(0);
    SplicedExactly(Plain(), map[], RefuseFrom(0));
  }

  lemma RefusalsFit()
    ensures FitsKernel(Plain(), RefuseFrom(0))
  {
    hide CallTable, CallName, RefuseFrom, RulesOf, GoodRules, RulesSize;
    OnlyRules(0);
    RefusalRules(CallTable(), RefuseFrom(0));
    var own := RulesOf(CallTable(), RefuseFrom(0));
    assert Allowlists(Plain()) + own == own;
    RefusalsSize(own);
  }

  lemma {:induction false} OnlyRules(k: nat)
    requires k <= CALLS
    ensures |RefuseFrom(k)| == CALLS - k && NoIncludes(RefuseFrom(k))
    ensures forall i :: 0 <= i < |RefuseFrom(k)| ==> RefuseFrom(k)[i].Rule? && RefuseFrom(k)[i].body == Refusal
    decreases CALLS - k
  {
    hide CallName;
    if k < CALLS {
      OnlyRules(k + 1);
    }
  }
}
