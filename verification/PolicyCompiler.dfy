/** syscall_filter.c: from a policy to a BPF program, as functions of the policy. The methods
    that build the program step by step are proved equal to these functions in PolicyBuilder. */
module PolicyCompiler {
  import opened Common
  import opened BpfMachine
  import opened BpfEmit
  import opened BpfResolve
  import opened FilterBlocks
  import opened Policy
  import opened PolicyCode
  import opened PolicyValid

  // compile_* returning an error, the process dying, or jump resolution reading outside the label
  // table.
  datatype Failure = Rejected | Died | ReadsOutside

  datatype Result<+T> = Ok(value: T) | Err(why: Failure) {
    predicate IsFailure() { Err? }
    function PropagateFailure<U>(): Result<U> requires Err? { Err(why) }
    function Extract(): T requires Ok? { value }
  }

  // ----- labels -----

  function Digits(n: nat): string {
    (if n < 10 then [] else Digits(n / 10)) + ['0' + (n % 10) as char]
  }

  function Decimal(n: int): string { if n < 0 then "-" + Digits(-n) else Digits(n) }

  // snprintf into MAX_BPF_LABEL_LEN bytes, the last of which is the terminator.
  function Clip(s: string): string { if |s| < MAX_LABEL_LEN then s else s[..MAX_LABEL_LEN - 1] }

  function GroupEndName(nr: int, grp: nat): string { Clip(Decimal(nr) + "_" + Decimal(grp) + "_end") }
  function SuccessName(nr: int): string { Clip(Decimal(nr) + "_success") }

  // get_label_id
  function GetLabel(names: Names, s: string): Result<(Names, Word)> {
    match Lookup(names, s)
    case (_, None) => Err(Died)
    case (names', Some(id)) => Ok((names', id))
  }

  lemma GetLabelStable(names: Names, s: string, later: Names)
    requires |s| <= MAX_LABEL_LEN && GetLabel(names, s).Ok? && GetLabel(names, s).value.0 <= later
    ensures names <= later && GetLabel(later, s) == Ok((later, GetLabel(names, s).value.1))
  {
    LookupStable(names, s, later);
    LookupGrows(names, s);
  }

  // ----- one rule -----

  /** compile_atom */
  function CompileAtom(names: Names, nr: int, grp: nat, atom: Atom): Result<(Names, Code)> {
    if atom.BadAtom? then Err(Rejected)
    else
      var (n, id) :- GetLabel(names, GroupEndName(nr, grp));
      Ok((n, ArgComp(atom.op, atom.arg, atom.c, id)))
  }

  function CompileAtoms(names: Names, nr: int, grp: nat, atoms: seq<Atom>): Result<(Names, seq<Code>)>
    decreases |atoms|
  {
    if atoms == [] then Ok((names, []))
    else
      var (n1, block) :- CompileAtom(names, nr, grp, atoms[0]);
      var (n2, rest) :- CompileAtoms(n1, nr, grp, atoms[1..]);
      Ok((n2, [block] + rest))
  }

  function CompileGroups(names: Names, nr: int, grp: nat, groups: seq<seq<Atom>>): Result<(Names, seq<Code>)>
    decreases |groups|
  {
    if groups == [] then Ok((names, []))
    else
      var (n1, atoms) :- CompileAtoms(names, nr, grp, groups[0]);
      var (n2, succ) :- GetLabel(n1, SuccessName(nr));
      var (n3, end) :- GetLabel(n2, GroupEndName(nr, grp));
      var (n4, rest) :- CompileGroups(n3, nr, grp + 1, groups[1..]);
      Ok((n4, atoms + [GroupEndBlock(succ, end)] + rest))
  }

  /** compile_policy_line */
  function CompileSection(names: Names, nr: int, id: Word, body: Body, a: Action): Result<(Names, seq<Code>)>
    requires !body.AllowAll?
  {
    match body
    case Block(ret) =>
      if RetWord(ret, a).None? then Err(Rejected) else Ok((names, ReturnSection(id, RetWord(ret, a).value)))
    case Filter(groups, ret) =>
      var (n1, blocks) :- CompileGroups(names, nr, 0, groups);
      if OtherwiseWord(ret, a).None? then Err(Rejected)
      else
        var (n2, succ) :- GetLabel(n1, SuccessName(nr));
        Ok((n2, [[LabelAt(id)]] + (blocks + ([[Stmt(Ret, OtherwiseWord(ret, a).value)]] + [SuccessBlock(succ)]))))
  }

  // ----- a file -----

  /** What compile_file has built so far: the label table, the system calls already defined (by
      table index), and the rules in order. */
  datatype Build = Build(names: Names, seen: set<nat>, entries: seq<Entry>)

  // The entry label's lookup is not checked: a failure becomes the id 0xffffffff.
  function EntryId(found: Option<Word>): Word { match found case Some(id) => id case None => 0xffff_ffff }

  function CompileRule(cfg: Config, b: Build, nr: int, ind: nat, name: string, body: Body): Result<Build> {
    var seen := b.seen + {ind};
    if body.AllowAll? then Ok(Build(b.names, seen, b.entries + [AllowEntry(ToWord(nr))]))
    else
      var (n1, found) := Lookup(b.names, name);
      var id := EntryId(found);
      var (n2, blocks) :- CompileSection(n1, nr, id, body, cfg.action);
      Ok(Build(n2, seen, b.entries + [SectionEntry(ToWord(nr), id, blocks)]))
  }

  /** compile_file: `redefined` remembers a duplicate, which fails the file only at its end. */
  function CompileLines(cfg: Config, files: Files, lines: seq<Line>, level: nat, b: Build,
                        redefined: bool): Result<Build>
    decreases if level == 0 then 1 else 0, |lines|
  {
    if lines == [] then (if redefined then Err(Rejected) else Ok(b))
    else
      var rest := lines[1..];
      match lines[0]
      case Ignored => CompileLines(cfg, files, rest, level, b, redefined)
      case BadStatement | MissingColon | EmptyRule => Err(Rejected)
      case Include(path) =>
        if level > 0 || ImplicitRelative(path) || path !in files then Err(Rejected)
        else
          var b1 :- CompileLines(cfg, files, files[path], level + 1, b, false);
          CompileLines(cfg, files, rest, level, b1, redefined)
      case Rule(name, body) =>
        var (nr, ind) := LookupSyscall(cfg.table, name);
        if nr < 0 then
          if cfg.allowLogging then CompileLines(cfg, files, rest, level, b, redefined) else Err(Rejected)
        else
          var b1 :- CompileRule(cfg, b, nr, ind, name, body);
          CompileLines(cfg, files, rest, level, b1, redefined || (ind in b.seen && !cfg.allowDuplicates))
  }

  function AllowEntries(rules: seq<NrRule>): seq<Entry> {
    seq(|rules|, i requires 0 <= i < |rules| => AllowEntry(rules[i].nr))
  }

  const EMPTY: Build := Build([], {}, [])

  /** compile_filter */
  function CompileFilter(cfg: Config, files: Files, lines: seq<Line>): Result<Code> {
    var b :- CompileLines(cfg, files, lines, 0, EMPTY, false);
    if cfg.action == Log && !cfg.allowLogging then Err(Rejected)
    else
      var p := ProgramCode(cfg.arch, AllowEntries(Allowlists(cfg)) + b.entries, ActionWord(cfg.action));
      Judged(p, |b.names|)
  }

  // The end of compile_filter, once the program is in the final buffer.
  function Judged(p: Code, count: nat): Result<Code> {
    match Resolve(p, count)
    case Accepted => Ok(Resolved(p))
    case Refused => Err(Rejected)
    case OutOfTable => Err(ReadsOutside)
  }

  // ----- a compiled section has the shape the semantics is about -----

  lemma {:induction false} AtomsCompiled(names: Names, nr: int, grp: nat, atoms: seq<Atom>, id: Word, later: Names)
    requires CompileAtoms(names, nr, grp, atoms).Ok?
    requires CompileAtoms(names, nr, grp, atoms).value.0 <= later
    requires GetLabel(later, GroupEndName(nr, grp)) == Ok((later, id))
    ensures names <= CompileAtoms(names, nr, grp, atoms).value.0
    ensures GoodAtoms(atoms) && CompileAtoms(names, nr, grp, atoms).value.1 == AtomBlocks(atoms, id)
    decreases |atoms|
  {
    if atoms != [] {
      var end := GroupEndName(nr, grp);
      var (n1, id1) := GetLabel(names, end).value;
      AtomsCompiled(n1, nr, grp, atoms[1..], id, later);
      LookupGrows(names, end);
      GetLabelStable(names, end, later);
      GoodAtomsSplits(atoms);
    }
  }

  lemma GoodAtomsSplits(atoms: seq<Atom>)
    requires atoms != []
    ensures GoodAtoms(atoms) <==> atoms[0].Atom? && GoodAtoms(atoms[1..])
  {
    assert forall i :: 0 < i < |atoms| ==> atoms[i] == atoms[1..][i - 1];
  }

  // A lookup of the text finds this id.
  predicate Named(names: Names, id: Word, text: string) { id < |names| && id == IndexOf(names, text, 0) }

  predicate AllNamed(names: Names, ids: seq<Word>, texts: seq<string>) {
    |ids| == |texts| && forall k :: 0 <= k < |ids| ==> Named(names, ids[k], texts[k])
  }

  // The texts of the end labels of n groups.
  function EndNames(nr: int, grp: nat, n: nat): (r: seq<string>)
    ensures |r| == n
    decreases n
  {
    if n == 0 then [] else [GroupEndName(nr, grp)] + EndNames(nr, grp + 1, n - 1)
  }

  lemma FoundNamed(names: Names, s: string, id: Word)
    requires GetLabel(names, s) == Ok((names, id))
    ensures Named(names, id, s)
  {
  }

  lemma AllNamedCons(names: Names, id: Word, text: string, ids: seq<Word>, texts: seq<string>)
    requires Named(names, id, text) && AllNamed(names, ids, texts)
    ensures AllNamed(names, [id] + ids, [text] + texts)
  {
  }

  lemma {:induction false} GroupsCompiled(names: Names, nr: int, grp: nat, groups: seq<seq<Atom>>, succ: Word,
                                          later: Names)
    returns (ends: seq<Word>)
    requires CompileGroups(names, nr, grp, groups).Ok?
    requires CompileGroups(names, nr, grp, groups).value.0 <= later
    requires GetLabel(later, SuccessName(nr)) == Ok((later, succ))
    ensures names <= CompileGroups(names, nr, grp, groups).value.0
    ensures |ends| == |groups| && GoodGroups(groups)
    ensures CompileGroups(names, nr, grp, groups).value.1 == GroupBlocks(groups, succ, ends)
    ensures AllNamed(later, ends, EndNames(nr, grp, |groups|))
    decreases |groups|
  {
    if groups == [] {
      ends := [];
    } else {
      assert |SuccessName(nr)| <= MAX_LABEL_LEN && |GroupEndName(nr, grp)| <= MAX_LABEL_LEN;
      hide Lookup, GroupEndName, SuccessName, Named, AllNamed, GoodAtoms, CompileAtoms, AtomBlocks;
      var (n1, atoms) := CompileAtoms(names, nr, grp, groups[0]).value;
      var (n2, succ1) := GetLabel(n1, SuccessName(nr)).value;
      var (n3, end) := GetLabel(n2, GroupEndName(nr, grp)).value;
      var rest := GroupsCompiled(n3, nr, grp + 1, groups[1..], succ, later);
      ends := [end] + rest;
      GroupLabelsStable(n1, nr, grp, later);
      AtomsCompiled(names, nr, grp, groups[0], end, n3);
      AllNamedCons(later, end, GroupEndName(nr, grp), rest, EndNames(nr, grp + 1, |groups| - 1));
      hide GetLabel, EndNames;
      assert ends[1..] == rest && ends[0] == end;
      GoodGroupsSplits(groups);
      hide GoodGroups;
    }
  }

  lemma GoodGroupsSplits(groups: seq<seq<Atom>>)
    requires groups != []
    ensures GoodGroups(groups) <==> GoodAtoms(groups[0]) && GoodGroups(groups[1..])
  {
    hide GoodAtoms;
    assert forall i :: 0 < i < |groups| ==> groups[i] == groups[1..][i - 1];
  }

  // The two labels asked for after a group keep their ids.
  lemma GroupLabelsStable(n1: Names, nr: int, grp: nat, later: Names)
    requires GetLabel(n1, SuccessName(nr)).Ok?
    requires var n2 := GetLabel(n1, SuccessName(nr)).value.0;
             GetLabel(n2, GroupEndName(nr, grp)).Ok? && GetLabel(n2, GroupEndName(nr, grp)).value.0 <= later
    ensures var (n2, succ) := GetLabel(n1, SuccessName(nr)).value;
            var (n3, end) := GetLabel(n2, GroupEndName(nr, grp)).value;
            && n1 <= n3 && GetLabel(n3, GroupEndName(nr, grp)) == Ok((n3, end))
            && GetLabel(later, SuccessName(nr)) == Ok((later, succ)) && Named(later, end, GroupEndName(nr, grp))
  {
    assert |SuccessName(nr)| <= MAX_LABEL_LEN && |GroupEndName(nr, grp)| <= MAX_LABEL_LEN;
    var (n2, succ) := GetLabel(n1, SuccessName(nr)).value;
    var (n3, end) := GetLabel(n2, GroupEndName(nr, grp)).value;
    LookupGrows(n1, SuccessName(nr));
    LookupGrows(n2, GroupEndName(nr, grp));
    hide Lookup, GroupEndName, SuccessName;
    GetLabelStable(n2, GroupEndName(nr, grp), n3);
    GetLabelStable(n2, GroupEndName(nr, grp), later);
    GetLabelStable(n1, SuccessName(nr), later);
    FoundNamed(later, GroupEndName(nr, grp), end);
  }

  lemma SectionCompiled(names: Names, nr: int, id: Word, body: Body, a: Action)
    requires !body.AllowAll? && CompileSection(names, nr, id, body, a).Ok?
    ensures SectionFor(id, CompileSection(names, nr, id, body, a).value.1, body, a)
  {
    match body
    case Block(_) =>
    case Filter(groups, ret) =>
      var (n1, blocks) := CompileGroups(names, nr, 0, groups).value;
      var (n2, succ) := GetLabel(n1, SuccessName(nr)).value;
      LookupGrows(n1, SuccessName(nr));
      GetLabelStable(n1, SuccessName(nr), n2);
      var ends := GroupsCompiled(names, nr, 0, groups, succ, n2);
      assert CompileSection(names, nr, id, body, a).value.1 ==
             FilterSection(id, groups, succ, ends, OtherwiseWord(ret, a).value);
  }

  // ----- a compiled file implements its rules -----

  // b1 is b with entries for these rules added.
  ghost predicate Adds(b: Build, b1: Build, rules: seq<NrRule>, a: Action) {
    |b.entries| <= |b1.entries| && b1.entries[..|b.entries|] == b.entries
    && AllImplement(b1.entries[|b.entries|..], rules, a)
  }

  lemma AddsNothing(b: Build, a: Action)
    ensures Adds(b, b, [], a)
  {
  }

  lemma AddsBoth(b: Build, b1: Build, b2: Build, r1: seq<NrRule>, r2: seq<NrRule>, a: Action)
    requires Adds(b, b1, r1, a) && Adds(b1, b2, r2, a)
    ensures Adds(b, b2, r1 + r2, a)
  {
    var n, n1 := |b.entries|, |b1.entries|;
    var e1, e2 := b1.entries[n..], b2.entries[n1..];
    AllImplementConcat(e1, r1, e2, r2, a);
    assert b2.entries[..n1][..n] == b2.entries[..n];
    assert b2.entries[n..] == b2.entries[..n1][n..] + e2;
  }

  lemma RuleCompiled(cfg: Config, b: Build, nr: int, ind: nat, name: string, body: Body)
    requires CompileRule(cfg, b, nr, ind, name, body).Ok?
    ensures Adds(b, CompileRule(cfg, b, nr, ind, name, body).value, [NrRule(ToWord(nr), body)], cfg.action)
  {
    var b1 := CompileRule(cfg, b, nr, ind, name, body).value;
    if !body.AllowAll? {
      var (n1, found) := Lookup(b.names, name);
      SectionCompiled(n1, nr, EntryId(found), body, cfg.action);
    }
    assert b1.entries[|b.entries|..] == [b1.entries[|b.entries|]];
  }

  /** Lines without includes that compile add exactly one entry per known rule, in order. */
  lemma {:induction false} LinesCompiled(cfg: Config, files: Files, lines: seq<Line>, level: nat, b: Build,
                                         redefined: bool)
    requires NoIncludes(lines) && CompileLines(cfg, files, lines, level, b, redefined).Ok?
    ensures Adds(b, CompileLines(cfg, files, lines, level, b, redefined).value, RulesOf(cfg.table, lines), cfg.action)
    decreases |lines|
  {
    if lines == [] {
      AddsNothing(b, cfg.action);
    } else {
      var rest := lines[1..];
      var b2 := CompileLines(cfg, files, lines, level, b, redefined).value;
      assert RulesOf(cfg.table, lines) == RuleOf(cfg.table, lines[0]) + RulesOf(cfg.table, rest);
      match lines[0] {
        case Ignored => LinesCompiled(cfg, files, rest, level, b, redefined);
        case Rule(name, body) =>
          var (nr, ind) := LookupSyscall(cfg.table, name);
          if nr < 0 {
            LinesCompiled(cfg, files, rest, level, b, redefined);
          } else {
            var b1 := CompileRule(cfg, b, nr, ind, name, body).value;
            RuleCompiled(cfg, b, nr, ind, name, body);
            var re := redefined || (ind in b.seen && !cfg.allowDuplicates);
            LinesCompiled(cfg, files, rest, level, b1, re);
            AddsBoth(b, b1, b2, [NrRule(ToWord(nr), body)], RulesOf(cfg.table, rest), cfg.action);
          }
        case _ =>
      }
    }
  }

  // ----- include is splicing -----

  // Same program, or both refused.
  predicate Agree<T(==)>(x: Result<T>, y: Result<T>) {
    (x.Ok? <==> y.Ok?) && (x.Ok? ==> x.value == y.value)
  }

  // A duplicate already met fails the file, whatever follows.
  lemma {:induction false} RedefinedFails(cfg: Config, files: Files, lines: seq<Line>, level: nat, b: Build)
    ensures CompileLines(cfg, files, lines, level, b, true).Err?
    decreases |lines|
  {
    if lines != [] {
      var rest := lines[1..];
      match lines[0] {
        case Ignored => RedefinedFails(cfg, files, rest, level, b);
        case Include(path) =>
          if level == 0 && !ImplicitRelative(path) && path in files {
            var r := CompileLines(cfg, files, files[path], level + 1, b, false);
            if r.Ok? { RedefinedFails(cfg, files, rest, level, r.value); }
          }
        case Rule(name, body) =>
          var (nr, ind) := LookupSyscall(cfg.table, name);
          if nr < 0 {
            RedefinedFails(cfg, files, rest, level, b);
          } else {
            var r := CompileRule(cfg, b, nr, ind, name, body);
            if r.Ok? { RedefinedFails(cfg, files, rest, level, r.value); }
          }
        case _ =>
      }
    }
  }

  /** Recursion depth is bounded: an included file that includes is refused. */
  lemma {:induction false} NestedIncludeFails(cfg: Config, files: Files, lines: seq<Line>, level: nat, b: Build,
                                              redefined: bool)
    requires level > 0 && !NoIncludes(lines)
    ensures CompileLines(cfg, files, lines, level, b, redefined).Err?
    decreases |lines|
  {
    var rest := lines[1..];
    if !lines[0].Include? {
      assert forall i :: 0 < i < |lines| ==> lines[i] == rest[i - 1];
      match lines[0]
      case Ignored => NestedIncludeFails(cfg, files, rest, level, b, redefined);
      case Rule(name, body) =>
        var (nr, ind) := LookupSyscall(cfg.table, name);
        if nr < 0 {
          NestedIncludeFails(cfg, files, rest, level, b, redefined);
        } else {
          var r := CompileRule(cfg, b, nr, ind, name, body);
          if r.Ok? {
            NestedIncludeFails(cfg, files, rest, level, r.value, redefined || (ind in b.seen && !cfg.allowDuplicates));
          }
        }
      case _ =>
    }
  }

  // Lines a without includes, as a file of their own at any level, then the lines c.
  function Sequel(cfg: Config, files: Files, r: Result<Build>, c: seq<Line>, redefined: bool): Result<Build> {
    var b1 :- r;
    CompileLines(cfg, files, c, 0, b1, redefined)
  }

  lemma {:induction false} LinesInTurn(cfg: Config, files: Files, a: seq<Line>, c: seq<Line>, level: nat, b: Build,
                                       redefined: bool, own: bool)
    requires NoIncludes(a)
    requires own ==> redefined
    ensures Agree(CompileLines(cfg, files, a + c, 0, b, redefined),
                  Sequel(cfg, files, CompileLines(cfg, files, a, level, b, own), c, redefined))
    decreases |a|
  {
    if a == [] {
      assert a + c == c;
      if own {
        RedefinedFails(cfg, files, c, 0, b);
      }
    } else {
      var a1, x := a[1..], a[0];
      assert (a + c)[0] == x && (a + c)[1..] == a1 + c;
      match x {
        case Ignored => LinesInTurn(cfg, files, a1, c, level, b, redefined, own);
        case Rule(name, body) => RuleInTurn(cfg, files, a, c, level, b, redefined, own);
        case _ =>
      }
    }
  }

  lemma {:induction false} RuleInTurn(cfg: Config, files: Files, a: seq<Line>, c: seq<Line>, level: nat, b: Build,
                                      redefined: bool, own: bool)
    requires a != [] && a[0].Rule? && NoIncludes(a)
    requires own ==> redefined
    ensures Agree(CompileLines(cfg, files, a + c, 0, b, redefined),
                  Sequel(cfg, files, CompileLines(cfg, files, a, level, b, own), c, redefined))
    decreases |a|, 0
  {
    var a1 := a[1..];
    assert (a + c)[0] == a[0] && (a + c)[1..] == a1 + c;
    var (nr, ind) := LookupSyscall(cfg.table, a[0].name);
    if nr < 0 {
      LinesInTurn(cfg, files, a1, c, level, b, redefined, own);
    } else {
      var r := CompileRule(cfg, b, nr, ind, a[0].name, a[0].body);
      if r.Ok? {
        if ind in b.seen && !cfg.allowDuplicates {
          RedefinedFails(cfg, files, a1 + c, 0, r.value);
          RedefinedFails(cfg, files, a1, level, r.value);
        } else {
          LinesInTurn(cfg, files, a1, c, level, r.value, redefined, own);
        }
      }
    }
  }

  /** Compiling a policy with includes gives the same program, or the same refusal, as compiling
      it with the included lines in place; an include that cannot be spliced is refused. */
  lemma {:induction false} IncludeIsSplicing(cfg: Config, files: Files, lines: seq<Line>, b: Build, redefined: bool)
    ensures match Splice(files, lines)
            case None => CompileLines(cfg, files, lines, 0, b, redefined).Err?
            case Some(ls) => Agree(CompileLines(cfg, files, lines, 0, b, redefined),
                                   CompileLines(cfg, files, ls, 0, b, redefined))
    decreases |lines|
  {
    if lines != [] {
      match lines[0]
      case Include(path) => IncludeSplices(cfg, files, lines, b, redefined);
      case _ => PlainLineSplices(cfg, files, lines, b, redefined);
    }
  }

  lemma {:induction false} PlainLineSplices(cfg: Config, files: Files, lines: seq<Line>, b: Build, redefined: bool)
    requires lines != [] && !lines[0].Include?
    ensures match Splice(files, lines)
            case None => CompileLines(cfg, files, lines, 0, b, redefined).Err?
            case Some(ls) => Agree(CompileLines(cfg, files, lines, 0, b, redefined),
                                   CompileLines(cfg, files, ls, 0, b, redefined))
    decreases |lines|, 0
  {
    var rest := lines[1..];
    if Splice(files, rest).Some? {
      var ls := [lines[0]] + Splice(files, rest).value;
      assert ls[0] == lines[0] && ls[1..] == Splice(files, rest).value;
    }
    match lines[0] {
      case Ignored => IncludeIsSplicing(cfg, files, rest, b, redefined);
      case Rule(name, body) =>
        var (nr, ind) := LookupSyscall(cfg.table, name);
        if nr < 0 {
          IncludeIsSplicing(cfg, files, rest, b, redefined);
        } else {
          var r := CompileRule(cfg, b, nr, ind, name, body);
          if r.Ok? {
            IncludeIsSplicing(cfg, files, rest, r.value, redefined || (ind in b.seen && !cfg.allowDuplicates));
          }
        }
      case _ =>
    }
  }

  lemma {:induction false} IncludeSplices(cfg: Config, files: Files, lines: seq<Line>, b: Build, redefined: bool)
    requires lines != [] && lines[0].Include?
    ensures match Splice(files, lines)
            case None => CompileLines(cfg, files, lines, 0, b, redefined).Err?
            case Some(ls) => Agree(CompileLines(cfg, files, lines, 0, b, redefined),
                                   CompileLines(cfg, files, ls, 0, b, redefined))
    decreases |lines|, 0
  {
    var path, rest := lines[0].path, lines[1..];
    if !ImplicitRelative(path) && path in files {
      var a := files[path];
      var r := CompileLines(cfg, files, a, 1, b, false);
      if r.Ok? {
        IncludeIsSplicing(cfg, files, rest, r.value, redefined);
      }
      if !NoIncludes(a) {
        NestedIncludeFails(cfg, files, a, 1, b, false);
      } else if Splice(files, rest).Some? {
        LinesInTurn(cfg, files, a, Splice(files, rest).value, 1, b, redefined, false);
      }
    }
  }

  // ----- duplicates -----

  // Table index of the rule on a line; None for lines that define no known system call.
  function IndexOn(table: seq<Syscall>, line: Line): Option<nat> {
    if line.Rule? && LookupSyscall(table, line.name).0 >= 0 then Some(LookupSyscall(table, line.name).1) else None
  }

  // ----- main theorem -----

  lemma AllowEntriesImplement(rules: seq<NrRule>, a: Action)
    requires forall i :: 0 <= i < |rules| ==> rules[i].body.AllowAll?
    ensures AllImplement(AllowEntries(rules), rules, a)
  {
  }

  /** Compiler correctness. An accepted policy has a spliced form whose rules, after the
      allowlists, the program implements: the kernel accepts the program exactly when every
      argument index lies in the data, and then it decides every system call as the policy
      does, returns along every path of its control-flow graph, and never takes more steps than
      it has instructions. */
  lemma CompilerCorrect(cfg: Config, files: Files, lines: seq<Line>)
    requires CompileFilter(cfg, files, lines).Ok?
    ensures Splice(files, lines).Some?
    ensures var rules := Allowlists(cfg) + RulesOf(cfg.table, Splice(files, lines).value);
            var p := CompileFilter(cfg, files, lines).value;
            && GoodRules(rules, cfg.action)
            && (ValidProgram(p) <==> RulesInData(rules))
            && (RulesInData(rules) ==>
                  && (forall d: SeccompData :: Decide(p, d) == Halt(PolicyVerdict(cfg, rules, d)))
                  && ReturnsOnEveryPath(p))
            && forall d: SeccompData :: Steps(p, 0, START, On(d)) <= |p|
  {
    var b := CompileLines(cfg, files, lines, 0, EMPTY, false).value;
    IncludeIsSplicing(cfg, files, lines, EMPTY, false);
    var ls := Splice(files, lines).value;
    SpliceHasNoIncludes(files, lines);
    LinesCompiled(cfg, files, ls, 0, EMPTY, false);
    var allow, own := Allowlists(cfg), RulesOf(cfg.table, ls);
    AllowEntriesImplement(allow, cfg.action);
    assert b.entries[|EMPTY.entries|..] == b.entries;
    AllImplementConcat(AllowEntries(allow), allow, b.entries, own, cfg.action);
    var entries, rules := AllowEntries(allow) + b.entries, allow + own;
    AllGood(entries, rules, cfg.action);
    ProgramValid(cfg, entries, rules, |b.names|);
    if RulesInData(rules) {
      ProgramDecides(cfg, entries, rules, |b.names|);
    }
    var p := CompileFilter(cfg, files, lines).value;
    forall d: SeccompData ensures Steps(p, 0, START, On(d)) <= |p| {
      StepsBound(p, 0, START, On(d));
    }
  }

  lemma {:induction false} SpliceHasNoIncludes(files: Files, lines: seq<Line>)
    ensures Splice(files, lines).Some? ==> NoIncludes(Splice(files, lines).value)
  {
    if lines != [] {
      SpliceHasNoIncludes(files, lines[1..]);
    }
  }
}
