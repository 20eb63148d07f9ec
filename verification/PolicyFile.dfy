/** syscall_filter.c: compile_file and compile_filter, over the state they share. */
module PolicyFile {
  import opened Common
  import opened BpfMachine
  import opened BpfEmit
  import opened BpfResolve
  import opened FilterBlocks
  import opened Policy
  import opened PolicyCode
  import opened PolicyValid
  import opened PolicyCompiler
  import opened PolicyBuilder
  import PolicyAccept
  import PolicyNumbers

  /** The shared state as a value: label table, defined system calls, blocks of the jump table
      and blocks of the sections. */
  datatype View = NoView | View(names: Names, seen: set<nat>, table: seq<Code>, args: seq<Code>)

  // ----- the state a build stands for -----

  function TableBlocks(entries: seq<Entry>): seq<Code> {
    seq(|entries|, i requires 0 <= i < |entries| => EntryCode(entries[i]))
  }

  function SectionOf(x: Entry): seq<Code> {
    match x case AllowEntry(_) => [] case SectionEntry(_, _, b) => b
  }

  function SectionBlocks(entries: seq<Entry>): seq<Code> {
    if entries == [] then [] else SectionOf(entries[0]) + SectionBlocks(entries[1..])
  }

  lemma {:induction false} SectionBlocksSnoc(entries: seq<Entry>, x: Entry)
    ensures SectionBlocks(entries + [x]) == SectionBlocks(entries) + SectionOf(x)
  {
    if entries == [] {
      assert [x][1..] == [] && SectionOf(x) + [] == SectionOf(x);
    } else {
      assert (entries + [x])[0] == entries[0] && (entries + [x])[1..] == entries[1..] + [x];
      SectionBlocksSnoc(entries[1..], x);
    }
  }

  lemma TableBlocksSnoc(entries: seq<Entry>, x: Entry)
    ensures TableBlocks(entries + [x]) == TableBlocks(entries) + [EntryCode(x)]
  {
  }

  // The view of a build whose jump table comes after the blocks `base`.
  function ViewOf(base: seq<Code>, b: Build): (v: View)
    ensures v.View?
  {
    View(b.names, b.seen, base + TableBlocks(b.entries), SectionBlocks(b.entries))
  }

  function ViewsOf(base: seq<Code>, r: Result<Build>): Result<View> {
    match r case Err(w) => Err(w) case Ok(b) => Ok(ViewOf(base, b))
  }

  function Reached(r: Result<()>, v: View): Result<View> {
    match r case Err(w) => Err(w) case Ok(_) => Ok(v)
  }

  lemma ViewSnoc(base: seq<Code>, b: Build, names: Names, seen: set<nat>, x: Entry)
    ensures ViewOf(base, Build(names, seen, b.entries + [x])) ==
            View(names, seen, ViewOf(base, b).table + [EntryCode(x)], ViewOf(base, b).args + SectionOf(x))
  {
    TableBlocksSnoc(b.entries, x);
    SectionBlocksSnoc(b.entries, x);
    assert base + (TableBlocks(b.entries) + [EntryCode(x)]) == base + TableBlocks(b.entries) + [EntryCode(x)];
  }

  function SectionView(a: Action, v: View, nr: int, id: Word, body: Body): Result<View>
    requires v.View? && !body.AllowAll?
  {
    var (names, blocks) :- CompileSection(v.names, nr, id, body, a);
    Ok(v.(names := names, args := v.args + blocks))
  }

  // A rule's effect on the state, apart from marking its system call.
  function RuleView(a: Action, v: View, nr: int, name: string, body: Body): Result<View>
    requires v.View?
  {
    if body.AllowAll? then Ok(v.(table := v.table + [EntryCode(AllowEntry(ToWord(nr)))]))
    else
      var (n1, found) := Lookup(v.names, name);
      var id := EntryId(found);
      SectionView(a, v.(names := n1, table := v.table + [EntryCode(SectionEntry(ToWord(nr), id, []))]), nr, id, body)
  }

  function Marked(v: View, ind: nat): (w: View)
    requires v.View?
    ensures w.View?
  {
    v.(seen := v.seen + {ind})
  }

  lemma RuleViewIsCompiled(cfg: Config, base: seq<Code>, b: Build, nr: int, ind: nat, name: string, body: Body)
    ensures RuleView(cfg.action, Marked(ViewOf(base, b), ind), nr, name, body) ==
            ViewsOf(base, CompileRule(cfg, b, nr, ind, name, body))
  {
    var seen := b.seen + {ind};
    if body.AllowAll? {
      ViewSnoc(base, b, b.names, seen, AllowEntry(ToWord(nr)));
      assert SectionBlocks(b.entries) + [] == SectionBlocks(b.entries);
    } else {
      var (n1, found) := Lookup(b.names, name);
      var r := CompileSection(n1, nr, EntryId(found), body, cfg.action);
      if r.Ok? {
        ViewSnoc(base, b, r.value.0, seen, SectionEntry(ToWord(nr), EntryId(found), r.value.1));
      }
    }
  }

  class Compilation {
    const head: FilterBlock        // jump table
    var argBlocks: FilterBlock?    // sections, null while there is none
    const labels: Labels
    const previous: array<bool>    // system calls already defined, by table index
    ghost var headNodes: seq<FilterBlock>
    ghost var argNodes: seq<FilterBlock>

    // The lists keep their nodes and gain new ones.
    twostate predicate Grew()
      reads this
    {
      && (forall i :: 0 <= i < |headNodes| ==>
            headNodes[i] == head || headNodes[i] in old(headNodes) || fresh(headNodes[i]))
      && forall i :: 0 <= i < |argNodes| ==> argNodes[i] in old(argNodes) || fresh(argNodes[i])
    }

    ghost predicate Apart()
      reads this
    {
      && head.owner == 0
      && (forall i :: 0 <= i < |headNodes| ==> headNodes[i].owner == 0)
      && forall i :: 0 <= i < |argNodes| ==> argNodes[i].owner == 1
    }

    ghost function Args(): Listing
      reads `argBlocks, `argNodes, argBlocks, argNodes
    {
      if argNodes == [] then (if argBlocks == null then Listing([]) else NoList)
      else if argBlocks != argNodes[0] then NoList
      else List(argBlocks, argNodes)
    }

    ghost function Seen(): set<nat>
      reads previous
    {
      set i | 0 <= i < previous.Length && previous[i]
    }

    ghost function Now(): View
      reads this, labels, previous, head, headNodes, argBlocks, argNodes
    {
      if Ready(labels) && Apart() && List(head, headNodes).Listing? && Args().Listing?
      then View(labels.names, Seen(), List(head, headNodes).blocks, Args().blocks)
      else NoView
    }

    constructor (size: nat)
      ensures Now() == View([], {}, [], []) && previous.Length == size
      ensures fresh(labels) && fresh(previous) && fresh(head) && headNodes == argNodes == []
    {
      head := new FilterBlock(0);
      argBlocks := null;
      labels := new Labels();
      previous := new bool[size](_ => false);
      headNodes, argNodes := [], [];
      new;
      assert Seen() == {};
      assert Blocks(headNodes) == [];
    }

    // append_filter_block on the jump table
    method AppendHead(code: Code)
      requires Now().View?
      modifies `headNodes, head, headNodes
      ensures Now() == old(Now()).(table := old(Now()).table + [code])
      ensures Grown(head, old(headNodes), headNodes)
    {
      hide IsList, Blocks;
      headNodes := Append(head, code, headNodes);
      assert Args() == old(Args()) && Seen() == old(Seen());
      assert Apart();
    }
  
    // extend_filter_block_list on the sections, or their first list
    method AddSection(block: FilterBlock, ghost nodes: seq<FilterBlock>)
      requires Now().View? && List(block, nodes).Listing? && |List(block, nodes).blocks| >= 2
      requires forall i :: 0 <= i < |nodes| ==> nodes[i] !in argNodes && nodes[i].owner == 1
      modifies `argBlocks, `argNodes, argNodes
      ensures Now() == old(Now()).(args := old(Now()).args + old(List(block, nodes)).blocks)
      ensures argNodes == old(argNodes) + nodes
    {
      hide IsList, Blocks;
      ApartMeansDisjoint();
      Attach(block, nodes);
      HeadKept();
    }

    // The head list is untouched when only the argument nodes changed.
    twostate lemma HeadKept()
      requires unchanged(head) && forall j :: 0 <= j < |old(headNodes)| ==> unchanged(old(headNodes)[j])
      requires headNodes == old(headNodes)
      ensures List(head, headNodes) == old(List(head, headNodes))
    {
    }

    lemma ApartMeansDisjoint()
      requires Apart()
      ensures head !in argNodes && forall j :: 0 <= j < |headNodes| ==> headNodes[j] !in argNodes
    {
    }

    method Attach(block: FilterBlock, ghost nodes: seq<FilterBlock>)
      requires Args().Listing? && List(block, nodes).Listing? && |List(block, nodes).blocks| >= 2
      requires forall i :: 0 <= i < |nodes| ==> nodes[i] !in argNodes
      modifies `argBlocks, `argNodes, argNodes
      ensures argNodes == old(argNodes) + nodes
      ensures Args() == Listing(old(Args()).blocks + old(List(block, nodes)).blocks)
    {
      ListStart(block, nodes);
      if argBlocks != null {
        ghost var all := argNodes + nodes;
        ExtendList(argBlocks, block, argNodes, nodes);
        argNodes := all;
      } else {
        SetFirst(block, nodes);
      }
    }

    method SetFirst(block: FilterBlock, ghost nodes: seq<FilterBlock>)
      requires argBlocks == null && Args().Listing? && List(block, nodes).Listing? && nodes != [] && nodes[0] == block
      modifies `argBlocks, `argNodes
      ensures argNodes == old(argNodes) + nodes
      ensures Args() == Listing(old(Args()).blocks + old(List(block, nodes)).blocks)
    {
      hide IsList, Blocks;
      ghost var more := List(block, nodes).blocks;
      assert argNodes == [] && Args().blocks == [] && [] + more == more && [] + nodes == nodes;
      argBlocks := block;
      argNodes := nodes;
      assert Args() == List(block, nodes);
    }

    lemma ListStart(block: FilterBlock, nodes: seq<FilterBlock>)
      requires List(block, nodes).Listing? && |List(block, nodes).blocks| >= 1
      ensures nodes != [] && nodes[0] == block
    {
    }

    // insert_and_check_duplicate_syscall
    method Mark(ind: nat) returns (isNew: bool)
      requires Now().View? && ind < previous.Length
      modifies previous
      ensures Now() == old(Now()).(seen := old(Now()).seen + {ind})
      ensures isNew <==> ind !in old(Now()).seen
    {
      isNew := !previous[ind];
      previous[ind] := true;
      assert Seen() == old(Seen()) + {ind};
      assert Args() == old(Args()) && List(head, headNodes) == old(List(head, headNodes));
    }
  
    // bpf_label_id for a section's entry label, unchecked
    method EntryLabel(name: string) returns (id: Word)
      requires Now().View?
      modifies labels
      ensures Now() == old(Now()).(names := Lookup(old(Now()).names, name).0)
      ensures id == EntryId(Lookup(old(Now()).names, name).1)
    {
      var i := labels.LabelId(name);
      id := if i < 0 then 0xffff_ffff else i;
      assert Args() == old(Args()) && List(head, headNodes) == old(List(head, headNodes)) && Seen() == old(Seen());
    }

    // compile_policy_line, seen from the shared state
    method Section(nr: int, id: Word, body: Body, a: Action) returns (r: Result<()>, block: FilterBlock,
        ghost nodes: seq<FilterBlock>)
      requires Now().View? && !body.AllowAll?
      modifies labels
      ensures Now().View? && Now() == old(Now()).(names := Now().names)
      ensures r.Ok? ==> List(block, nodes).Listing? && |List(block, nodes).blocks| >= 2
      ensures forall i :: 0 <= i < |nodes| ==> fresh(nodes[i]) && nodes[i].owner == 1
      ensures Built(r, Now().names, List(block, nodes)) == CompileSection(old(Now()).names, nr, id, body, a)
    {
      r, block, nodes := BuildSection(labels, nr, id, body, a, 1);
      assert Args() == old(Args()) && List(head, headNodes) == old(List(head, headNodes)) && Seen() == old(Seen());
    }

    // compile_policy_line, and its list hung onto the sections
    method CompileAndAddSection(nr: int, id: Word, body: Body, a: Action) returns (r: Result<()>)
      requires Now().View? && !body.AllowAll?
      modifies labels, `argBlocks, `argNodes, argNodes
      ensures forall i :: 0 <= i < |argNodes| ==> argNodes[i] in old(argNodes) || fresh(argNodes[i])
      ensures r.Ok? ==> Now().View?
      ensures Reached(r, Now()) == SectionView(a, old(Now()), nr, id, body)
    {
      hide IsList, Now;
      var block; ghost var nodes;
      r, block, nodes := Section(nr, id, body, a);
      if r.Ok? {
        assert forall i :: 0 <= i < |nodes| ==> nodes[i] !in argNodes;
        AddSection(block, nodes);
      }
    }

    /** The jump table entry of a rule and, unless it is a plain allow, its section. */
    method AddRule(a: Action, nr: int, name: string, body: Body) returns (r: Result<()>)
      requires Now().View?
      modifies this, labels, head, headNodes, argNodes
      ensures Grew()
      ensures r.Ok? ==> Now().View?
      ensures Reached(r, Now()) == RuleView(a, old(Now()), nr, name, body)
    {
      hide Now;
      if body.AllowAll? {
        AppendHead(EntryCode(AllowEntry(ToWord(nr))));
        return Ok(());
      }
      var id := EntryLabel(name);
      AppendHead(EntryCode(SectionEntry(ToWord(nr), id, [])));
      r := CompileAndAddSection(nr, id, body, a);
    }
  
    /** One policy rule: its system call is marked, and a duplicate is reported. */
    method Rule(cfg: Config, name: string, body: Body, ghost base: seq<Code>, ghost b: Build)
      returns (r: Result<bool>)
      requires Now() == ViewOf(base, b) && previous.Length == |cfg.table|
      modifies this, labels, previous, head, headNodes, argNodes
      ensures Grew()
      ensures var step := RuleStep(cfg, b, name, body);
              && (step.Err? ==> r == Err(step.why))
              && (step.Ok? ==> r == Ok(step.value.1) && Now() == ViewOf(base, step.value.0))
    {
      hide Now;
      var nr, ind := FindSyscall(cfg.table, name);
      if nr < 0 {
        if cfg.allowLogging {
          return Ok(false);
        }
        return Err(Rejected);
      }
      RuleViewIsCompiled(cfg, base, b, nr, ind, name, body);
      var isNew := Mark(ind);
      var ok := AddRule(cfg.action, nr, name, body);
      if ok.Err? {
        return Err(ok.why);
      }
      r := Ok(!isNew && !cfg.allowDuplicates);
    }

    // The body of compile_file's loop.
    method CompileLine(cfg: Config, files: Files, line: Line, level: nat, ghost base: seq<Code>, ghost b: Build)
      returns (r: Result<bool>)
      requires Now() == ViewOf(base, b) && previous.Length == |cfg.table|
      modifies this, labels, previous, head, headNodes, argNodes
      ensures Grew()
      ensures var step := LineStep(cfg, files, line, level, b);
              && (step.Err? ==> r == Err(step.why))
              && (step.Ok? ==> r == Ok(step.value.1) && Now() == ViewOf(base, step.value.0))
      decreases if level == 0 then 1 else 0, 0
    {
      hide Now;
      match line {
        case Ignored => return Ok(false);
        case Include(path) =>
          if level > 0 || ImplicitRelative(path) || path !in files {
            return Err(Rejected);
          }
          var ok := CompileFile(cfg, files, files[path], level + 1, base, b);
          if ok.Err? {
            return Err(ok.why);
          }
          return Ok(false);
        case Rule(name, body) => r := Rule(cfg, name, body, base, b);
        case _ => return Err(Rejected);
      }
    }

    // One turn of compile_file's loop: what is left to do after the line.
    method NextLine(cfg: Config, files: Files, lines: seq<Line>, i: nat, level: nat, redefined: bool,
                    ghost base: seq<Code>, ghost b: Build)
      returns (r: Result<bool>, ghost b': Build)
      requires Now() == ViewOf(base, b) && previous.Length == |cfg.table| && i < |lines|
      modifies this, labels, previous, head, headNodes, argNodes
      ensures Grew()
      ensures r.Ok? ==> Now() == ViewOf(base, b')
      ensures CompileLines(cfg, files, lines[i..], level, b, redefined) ==
              if r.Err? then Err(r.why) else CompileLines(cfg, files, lines[i + 1..], level, b', r.value)
      decreases if level == 0 then 1 else 0, 1
    {
      hide Now;
      ghost var step := LineStep(cfg, files, lines[i], level, b);
      LinesStep(cfg, files, lines, i, level, b, redefined);
      r := CompileLine(cfg, files, lines[i], level, base, b);
      b' := b;
      if r.Ok? {
        b' := step.value.0;
        r := Ok(redefined || r.value);
      }
    }

    /** compile_file */
    method CompileFile(cfg: Config, files: Files, lines: seq<Line>, level: nat, ghost base: seq<Code>, ghost b: Build)
      returns (r: Result<()>)
      requires Now() == ViewOf(base, b) && previous.Length == |cfg.table|
      modifies this, labels, previous, head, headNodes, argNodes
      ensures Grew()
      ensures Reached(r, Now()) == ViewsOf(base, CompileLines(cfg, files, lines, level, b, false))
      decreases if level == 0 then 1 else 0, 2
    {
      hide Now;
      var i, redefined := 0, Ok(false);
      ghost var goal, cur := CompileLines(cfg, files, lines, level, b, false), b;
      assert lines[0..] == lines;
      while i < |lines|
        invariant 0 <= i <= |lines| && redefined.Ok? && Grew() && Now() == ViewOf(base, cur)
        invariant goal == CompileLines(cfg, files, lines[i..], level, cur, redefined.value)
      {
        redefined, cur := NextLine(cfg, files, lines, i, level, redefined.value, base, cur);
        if redefined.Err? {
          return Err(redefined.why);
        }
        i := i + 1;
      }
      r := if redefined.value then Err(Rejected) else Ok(());
    }

    // allow_selected_syscalls
    method AllowSelected(table: seq<Syscall>, names: seq<string>)
      requires Now().View?
      modifies `headNodes, head, headNodes
      ensures Now() == WithBlocks(old(Now()), AllowBlocks(table, names, |names|))
      ensures Grown(head, old(headNodes), headNodes)
    {
      hide Now;
      ghost var start := Now();
      var i := 0;
      WithNoBlocks(start);
      while i < |names|
        invariant 0 <= i <= |names| && Grown(head, old(headNodes), headNodes)
        invariant Now() == WithBlocks(start, AllowBlocks(table, names, i))
      {
        var nr, _ := FindSyscall(table, names[i]);
        WithMoreBlocks(start, AllowBlocks(table, names, i), EntryCode(AllowEntry(ToWord(nr))));
        AppendHead(EntryCode(AllowEntry(ToWord(nr))));
        i := i + 1;
      }
    }

    method AllowIf(on: bool, table: seq<Syscall>, names: seq<string>)
      requires Now().View?
      modifies `headNodes, head, headNodes
      ensures Now() == WithBlocks(old(Now()), AllowedBlocks(on, table, names))
      ensures Grown(head, old(headNodes), headNodes)
    {
      hide Now, AllowBlocks;
      WithNoBlocks(Now());
      if on {
        AllowSelected(table, names);
      }
    }

    // The start of compile_filter, up to the policy file.
    method Begin(cfg: Config)
      requires Now() == View([], {}, [], []) && headNodes == []
      modifies `headNodes, head
      ensures Now() == View([], {}, BaseBlocks(cfg), [])
      ensures Grown(head, [], headNodes)
    {
      hide Now, AllowedBlocks, BaseBlocks;
      BaseIs(cfg);
      AppendHead(ArchBlock(cfg.arch));
      AppendHead(LoadBlock());
      assert [] + [ArchBlock(cfg.arch)] == [ArchBlock(cfg.arch)];
      AllowIf(cfg.allowSyscallsForLogging, cfg.table, cfg.logSyscalls);
      AllowIf(cfg.libcAllowlist, cfg.table, cfg.libcSyscalls);
    }

    // The end of compile_filter: default action, final buffer, jump resolution.
    method Finish(default: Word) returns (r: Result<Code>)
      requires Now().View?
      modifies this, labels, head, headNodes
      ensures var v := old(Now());
              var p := Concat(v.table + [[Stmt(Ret, default)]]) + Concat(v.args);
              r == Judged(p, |v.names|)
    {
      AppendHead([Stmt(Ret, default)]);
      var filter := Assemble();
      if filter == null {
        return Err(Rejected);
      }
      hide Resolved, Resolve, Now;
      var verdict := ResolveJumps(labels, filter);
      match verdict {
        case Accepted => r := Ok(filter[..]);
        case Refused => r := Err(Rejected);
        case OutOfTable => r := Err(ReadsOutside);
      }
    }

    // Both lists copied one after the other into a buffer of their size.
    method CopyLists(filter: array<Instr>)
      requires Now().View? && headNodes != []
      requires filter.Length == |Concat(Now().table)| + |Concat(Now().args)|
      modifies filter
      ensures Now() == old(Now()) && filter[..] == Concat(Now().table) + Concat(Now().args)
    {
      ListLengths();
      ghost var first, second := Concat(Now().table), Concat(Now().args);
      ghost var empty := filter[..];
      var ok := Flatten(head, filter, 0, filter.Length, headNodes);
      ghost var half := filter[..];
      ok := Flatten(argBlocks, filter, head.totalLen, filter.Length, argNodes);
      BothCopied(empty, half, filter[..], first, second);
    }

    /** The final buffer: both lists, exactly filling it, unless they are too long. */
    method Assemble() returns (filter: array?<Instr>)
      requires Now().View? && headNodes != []
      ensures var code := Concat(Now().table) + Concat(Now().args);
              && (filter == null <==> |code| > MAX_INSNS)
              && (filter != null ==> fresh(filter) && filter[..] == code)
    {
      ListLengths();
      var len := head.totalLen + if argBlocks == null then 0 else argBlocks.totalLen;
      if len > MAX_INSNS {
        return null;
      }
      filter := new Instr[len](_ => Stmt(Ret, 0));
      CopyLists(filter);
    }

    // The cached lengths are the numbers of instructions.
    lemma ListLengths()
      requires Now().View? && headNodes != []
      ensures head.totalLen == |Concat(Now().table)| && headNodes[0] == head && Segment(headNodes, null)
      ensures Now().table == Blocks(headNodes) && Now().args == Blocks(argNodes)
      ensures if argBlocks == null then argNodes == [] && Now().args == []
              else argNodes != [] && argNodes[0] == argBlocks && Segment(argNodes, null)
                   && argBlocks.totalLen == |Concat(Now().args)|
    {
    }
  }

  // The view with more blocks in the jump table.
  function WithBlocks(v: View, blocks: seq<Code>): (w: View)
    requires v.View?
    ensures w.View?
  {
    v.(table := v.table + blocks)
  }

  lemma WithNoBlocks(v: View)
    requires v.View?
    ensures WithBlocks(v, []) == v
  {
    assert v.table + [] == v.table;
  }

  lemma WithMoreBlocks(v: View, blocks: seq<Code>, c: Code)
    requires v.View?
    ensures WithBlocks(WithBlocks(v, blocks), [c]) == WithBlocks(v, blocks + [c])
  {
    assert v.table + blocks + [c] == v.table + (blocks + [c]);
  }

  // The entries for the first n names of an allowlist.
  function AllowBlocks(table: seq<Syscall>, names: seq<string>, n: nat): seq<Code>
    requires n <= |names|
  {
    if n == 0 then []
    else AllowBlocks(table, names, n - 1) + [EntryCode(AllowEntry(ToWord(LookupSyscall(table, names[n - 1]).0)))]
  }

  lemma {:induction false} AllowBlocksAre(table: seq<Syscall>, names: seq<string>, n: nat)
    requires n <= |names|
    ensures AllowBlocks(table, names, n) == TableBlocks(AllowEntries(AllowRules(table, names)))[..n]
  {
    if n > 0 {
      AllowBlocksAre(table, names, n - 1);
    }
  }

  lemma BothCopied(a: Code, b: Code, c: Code, first: Code, second: Code)
    requires |a| == |first| + |second|
    requires Copied(b, a, 0, first) && Copied(c, b, |first|, second)
    ensures c == first + second
  {
    CopiedTwice(a, b, c, 0, first, second);
  }

  // The blocks before the jump table entries of the policy.
  function BaseBlocks(cfg: Config): seq<Code> {
    [ArchBlock(cfg.arch)] + ([LoadBlock()] + TableBlocks(AllowEntries(Allowlists(cfg))))
  }

  // bpf_validate_arch
  function ArchBlock(arch: Word): Code { [Stmt(LdAbs, 4), Instr(Jeq, arch, 1, 0), Stmt(Ret, RET_KILL)] }

  // bpf_load_syscall_nr
  function LoadBlock(): Code { [Stmt(LdAbs, 0)] }

  lemma ViewOfEmpty(base: seq<Code>)
    ensures ViewOf(base, EMPTY) == View([], {}, base, [])
  {
    assert TableBlocks([]) == [] && base + [] == base;
  }

  function AllowedBlocks(on: bool, table: seq<Syscall>, names: seq<string>): seq<Code> {
    if on then AllowBlocks(table, names, |names|) else []
  }

  // The table after both allowlists.
  lemma BaseIs(cfg: Config)
    ensures BaseBlocks(cfg) == [ArchBlock(cfg.arch)] + [LoadBlock()]
                               + AllowedBlocks(cfg.allowSyscallsForLogging, cfg.table, cfg.logSyscalls)
                               + AllowedBlocks(cfg.libcAllowlist, cfg.table, cfg.libcSyscalls)
  {
    AllowBlocksAre(cfg.table, cfg.logSyscalls, |cfg.logSyscalls|);
    AllowBlocksAre(cfg.table, cfg.libcSyscalls, |cfg.libcSyscalls|);
    var x := if cfg.allowSyscallsForLogging then AllowRules(cfg.table, cfg.logSyscalls) else [];
    var y := if cfg.libcAllowlist then AllowRules(cfg.table, cfg.libcSyscalls) else [];
    assert AllowEntries(x + y) == AllowEntries(x) + AllowEntries(y);
    TableBlocksAppend(AllowEntries(x), AllowEntries(y));
  }

  lemma {:induction false} TableBlocksConcat(entries: seq<Entry>)
    ensures Concat(TableBlocks(entries)) == TableCode(entries)
  {
    if entries != [] {
      assert TableBlocks(entries)[1..] == TableBlocks(entries[1..]);
      TableBlocksConcat(entries[1..]);
    }
  }

  lemma {:induction false} SectionBlocksConcat(entries: seq<Entry>)
    ensures Concat(SectionBlocks(entries)) == SectionsCode(entries)
  {
    if entries != [] {
      ConcatAppend(SectionOf(entries[0]), SectionBlocks(entries[1..]));
      SectionBlocksConcat(entries[1..]);
    }
  }

  lemma {:induction false} AllowEntriesHaveNoSections(rules: seq<NrRule>, rest: seq<Entry>)
    ensures SectionBlocks(AllowEntries(rules) + rest) == SectionBlocks(rest)
  {
    if rules == [] {
      assert AllowEntries(rules) + rest == rest;
    } else {
      var all := AllowEntries(rules) + rest;
      assert all[0] == AllowEntry(rules[0].nr) && all[1..] == AllowEntries(rules[1..]) + rest;
      AllowEntriesHaveNoSections(rules[1..], rest);
    }
  }

  lemma TableBlocksAppend(a: seq<Entry>, b: seq<Entry>)
    ensures TableBlocks(a + b) == TableBlocks(a) + TableBlocks(b)
  {
  }

  // The arch check and the load, then the jump table, then the default action.
  lemma TableHoldsHead(arch: Word, entries: seq<Entry>, default: Word)
    ensures Concat([ArchBlock(arch)] + ([LoadBlock()] + TableBlocks(entries)) + [[Stmt(Ret, default)]]) ==
            HeadCode(arch, entries, default)
  {
    var a, l, t, d := ArchBlock(arch), LoadBlock(), TableBlocks(entries), [Stmt(Ret, default)];
    ConcatSnoc([a] + ([l] + t), d);
    ConcatCons(a, [l] + t);
    ConcatCons(l, t);
    TableBlocksConcat(entries);
    assert a + (l + TableCode(entries)) + d == Prologue(arch) + (TableCode(entries) + d);
  }

  // The two lists hold the program that is then resolved.
  lemma ListsHoldProgram(cfg: Config, b: Build, default: Word)
    ensures var v := ViewOf(BaseBlocks(cfg), b);
            Concat(v.table + [[Stmt(Ret, default)]]) + Concat(v.args) ==
            ProgramCode(cfg.arch, AllowEntries(Allowlists(cfg)) + b.entries, default)
  {
    hide Concat, HeadCode, SectionsCode;
    var allow := AllowEntries(Allowlists(cfg));
    var all := allow + b.entries;
    var v := ViewOf(BaseBlocks(cfg), b);
    TableBlocksAppend(allow, b.entries);
    assert v.table == [ArchBlock(cfg.arch)] + ([LoadBlock()] + TableBlocks(all));
    TableHoldsHead(cfg.arch, all, default);
    AllowEntriesHaveNoSections(Allowlists(cfg), b.entries);
    SectionBlocksConcat(all);
  }

  /** compile_filter: the program the kernel is given, or the failure. The result is the one
      PolicyCompiler defines, so it decides as the policy does. */
  method CompilePolicy(cfg: Config, files: Files, lines: seq<Line>) returns (r: Result<Code>)
    ensures r == CompileFilter(cfg, files, lines)
    ensures r.Ok? <==> PolicyAccept.Acceptable(cfg, files, lines)
    ensures r == Err(ReadsOutside) <==> PolicyAccept.Overflowing(cfg, files, lines)
    ensures r.Ok? ==> Splice(files, lines).Some?
    ensures r.Ok? ==>
              var rules := Allowlists(cfg) + RulesOf(cfg.table, Splice(files, lines).value);
              && GoodRules(rules, cfg.action)
              && (ValidProgram(r.value) <==> RulesInData(rules))
              && (RulesInData(rules) ==>
                    && (forall d: SeccompData :: Decide(r.value, d) == Halt(PolicyVerdict(cfg, rules, d)))
                    && ReturnsOnEveryPath(r.value))
    ensures r.Ok? && RulesInData(Allowlists(cfg) + RulesOf(cfg.table, Splice(files, lines).value)) ==>
              forall d: SeccompData ::
                Decide(r.value, d).Halt?
                && PolicyNumbers.Returns(cfg, Splice(files, lines).value, d, Decide(r.value, d).verdict)
  {
    hide *;
    r := RunCompilation(cfg, files, lines);
    PolicyAccept.AcceptedExactly(cfg, files, lines);
    PolicyAccept.ReadsOutsideExactly(cfg, files, lines);
    if r.Ok? {
      CompilerCorrect(cfg, files, lines);
      if RulesInData(Allowlists(cfg) + RulesOf(cfg.table, Splice(files, lines).value)) {
        forall d: SeccompData
          ensures Decide(r.value, d).Halt?
          ensures PolicyNumbers.Returns(cfg, Splice(files, lines).value, d, Decide(r.value, d).verdict)
        {
          PolicyNumbers.AcceptedReturns(cfg, files, lines, d);
        }
      }
    }
  }

  // The steps of compile_filter.
  method RunCompilation(cfg: Config, files: Files, lines: seq<Line>) returns (r: Result<Code>)
    ensures r == CompileFilter(cfg, files, lines)
  {
    hide CompileLines, Concat, ProgramCode, Judged, BaseBlocks, Allowlists, TableBlocks, SectionBlocks;
    var c := new Compilation(|cfg.table|);
    c.Begin(cfg);
    ViewOfEmpty(BaseBlocks(cfg));
    var ok := c.CompileFile(cfg, files, lines, 0, BaseBlocks(cfg), EMPTY);
    if ok.Err? {
      return Err(ok.why);
    }
    if cfg.action == Log && !cfg.allowLogging {
      return Err(Rejected);
    }
    ghost var b := CompileLines(cfg, files, lines, 0, EMPTY, false).value;
    ListsHoldProgram(cfg, b, ActionWord(cfg.action));
    r := c.Finish(ActionWord(cfg.action));
  }

  // A line's effect on a build, and whether it is a forbidden duplicate.
  function LineStep(cfg: Config, files: Files, line: Line, level: nat, b: Build): Result<(Build, bool)> {
    match line
    case Ignored => Ok((b, false))
    case Include(path) =>
      if level > 0 || ImplicitRelative(path) || path !in files then Err(Rejected)
      else
        var b1 :- CompileLines(cfg, files, files[path], level + 1, b, false);
        Ok((b1, false))
    case Rule(name, body) => RuleStep(cfg, b, name, body)
    case _ => Err(Rejected)
  }

  lemma LinesStep(cfg: Config, files: Files, lines: seq<Line>, i: nat, level: nat, b: Build, redefined: bool)
    requires i < |lines|
    ensures CompileLines(cfg, files, lines[i..], level, b, redefined) ==
            match LineStep(cfg, files, lines[i], level, b)
            case Err(w) => Err(w)
            case Ok((b1, dup)) => CompileLines(cfg, files, lines[i + 1..], level, b1, redefined || dup)
  {
    assert lines[i..][0] == lines[i] && lines[i..][1..] == lines[i + 1..];
  }

  // A rule's effect on a build, and whether it is a forbidden duplicate.
  function RuleStep(cfg: Config, b: Build, name: string, body: Body): Result<(Build, bool)> {
    var (nr, ind) := LookupSyscall(cfg.table, name);
    if nr < 0 then (if cfg.allowLogging then Ok((b, false)) else Err(Rejected))
    else
      var b1 :- CompileRule(cfg, b, nr, ind, name, body);
      Ok((b1, ind in b.seen && !cfg.allowDuplicates))
  }

  // lookup_syscall
  method FindSyscall(table: seq<Syscall>, name: string) returns (nr: int, ind: nat)
    ensures (nr, ind) == LookupSyscall(table, name)
    ensures nr >= 0 ==> PolicyNumbers.EntryFor(table, name, ind) && table[ind].nr == nr
    ensures nr < 0 ==> nr == -1 && forall i: nat :: !PolicyNumbers.EntryFor(table, name, i)
  {
    PolicyNumbers.LookupIs(table, name, 0);
    ind := 0;
    while ind < |table| && table[ind].nr >= 0
      invariant 0 <= ind <= |table|
      invariant LookupSyscall(table, name) == LookupFrom(table, name, ind)
    {
      if table[ind].name == name {
        return table[ind].nr, ind;
      }
      ind := ind + 1;
    }
    return -1, |table|;
  }
}
