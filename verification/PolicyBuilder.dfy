/** syscall_filter.c: the compiler as it runs, appending blocks to linked lists, handing out
    labels and patching the final buffer, proved to compute what PolicyCompiler says. */
module PolicyBuilder {
  import opened Common
  import opened BpfMachine
  import opened BpfEmit
  import opened BpfResolve
  import opened FilterBlocks
  import opened Policy
  import opened PolicyCode
  import opened PolicyCompiler

  // ----- compile_atom, compile_policy_line -----

  // Blocks already appended, then what is still to be compiled.
  function Prepend(done: seq<Code>, r: Result<(Names, seq<Code>)>): Result<(Names, seq<Code>)> {
    match r case Err(w) => r case Ok((n, b)) => Ok((n, done + b))
  }

  lemma PrependTwice(x: seq<Code>, y: seq<Code>, r: Result<(Names, seq<Code>)>)
    ensures Prepend(x, Prepend(y, r)) == Prepend(x + y, r)
  {
    if r.Ok? {
      assert x + (y + r.value.1) == (x + y) + r.value.1;
    }
  }

  ghost predicate Ready(labels: Labels)
    reads labels
  {
    labels.Valid() && labels.Unplaced()
  }

  // get_label_id
  method GetLabelId(labels: Labels, name: string) returns (r: Result<Word>)
    requires Ready(labels)
    modifies labels
    ensures Ready(labels)
    ensures match GetLabel(old(labels.names), name)
            case Err(w) => r == Err(w)
            case Ok((names, id)) => r == Ok(id) && labels.names == names
  {
    var id := labels.LabelId(name);
    if id < 0 {
      return Err(Died);
    }
    r := Ok(id);
  }

  // What has been built: the failure, or the label table and the blocks of the list.
  function Built(r: Result<()>, names: Names, l: Listing): Result<(Names, seq<Code>)>
    requires r.Ok? ==> l.Listing?
  {
    match r case Err(w) => Err(w) case Ok(_) => Ok((names, l.blocks))
  }

  function One(r: Result<(Names, Code)>): Result<(Names, seq<Code>)> {
    match r case Err(w) => Err(w) case Ok((n, c)) => Ok((n, [c]))
  }

  /** compile_atom */
  method BuildAtom(head: FilterBlock, labels: Labels, nr: int, grp: nat, atom: Atom, ghost nodes: seq<FilterBlock>)
    returns (r: Result<()>, ghost nodes': seq<FilterBlock>)
    requires Ready(labels) && List(head, nodes).Listing?
    modifies labels, head, nodes
    ensures Ready(labels)
    ensures r.Ok? ==> List(head, nodes').Listing? && Grown(head, nodes, nodes')
    ensures Built(r, labels.names, List(head, nodes')) ==
            Prepend(old(List(head, nodes).blocks), One(CompileAtom(old(labels.names), nr, grp, atom)))
  {
    nodes' := nodes;
    if atom.BadAtom? {
      return Err(Rejected), nodes';
    }
    var id := GetLabelId(labels, GroupEndName(nr, grp));
    if id.Err? {
      return Err(id.why), nodes';
    }
    var filter := BpfArgComp(atom.op, atom.arg, atom.c, id.value);
    nodes' := Append(head, filter[..], nodes);
    r := Ok(());
  }

  // The inner loop of compile_policy_line: the atoms of one conjunction.
  method BuildConjunction(head: FilterBlock, labels: Labels, nr: int, grp: nat, atoms: seq<Atom>,
                          ghost nodes: seq<FilterBlock>)
    returns (r: Result<()>, ghost nodes': seq<FilterBlock>)
    requires Ready(labels) && List(head, nodes).Listing?
    modifies labels, head, nodes
    ensures Ready(labels)
    ensures r.Ok? ==> List(head, nodes').Listing? && Grown(head, nodes, nodes')
    ensures Built(r, labels.names, List(head, nodes')) ==
            Prepend(old(List(head, nodes).blocks), CompileAtoms(old(labels.names), nr, grp, atoms))
  {
    ghost var goal := Prepend(List(head, nodes).blocks, CompileAtoms(labels.names, nr, grp, atoms));
    var i := 0;
    nodes' := nodes;
    assert atoms[0..] == atoms;
    while i < |atoms|
      invariant 0 <= i <= |atoms| && Ready(labels)
      invariant List(head, nodes').Listing? && Grown(head, nodes, nodes')
      invariant goal == Prepend(List(head, nodes').blocks, CompileAtoms(labels.names, nr, grp, atoms[i..]))
    {
      AtomsStep(List(head, nodes').blocks, labels.names, nr, grp, atoms, i);
      r, nodes' := BuildAtom(head, labels, nr, grp, atoms[i], nodes');
      if r.Err? {
        return;
      }
      i := i + 1;
    }
    r := Ok(());
    PrependEmpty(List(head, nodes').blocks, labels.names, nr, grp, atoms[i..]);
  }

  lemma PrependEmpty(done: seq<Code>, names: Names, nr: int, grp: nat, atoms: seq<Atom>)
    requires atoms == []
    ensures Prepend(done, CompileAtoms(names, nr, grp, atoms)) == Ok((names, done))
  {
    assert done + [] == done;
  }

  lemma AtomsStep(done: seq<Code>, names: Names, nr: int, grp: nat, atoms: seq<Atom>, i: nat)
    requires i < |atoms|
    ensures Prepend(done, CompileAtoms(names, nr, grp, atoms[i..])) ==
            match Prepend(done, One(CompileAtom(names, nr, grp, atoms[i])))
            case Err(w) => Err(w)
            case Ok((n, blocks)) => Prepend(blocks, CompileAtoms(n, nr, grp, atoms[i + 1..]))
  {
    assert atoms[i..][0] == atoms[i] && atoms[i..][1..] == atoms[i + 1..];
    var first := CompileAtom(names, nr, grp, atoms[i]);
    if first.Ok? {
      var rest := CompileAtoms(first.value.0, nr, grp, atoms[i + 1..]);
      PrependTwice(done, [first.value.1], rest);
    }
  }

  // The block that ends a conjunction.
  function CompileGroupEnd(names: Names, nr: int, grp: nat): Result<(Names, seq<Code>)> {
    var (n2, succ) :- GetLabel(names, SuccessName(nr));
    var (n3, end) :- GetLabel(n2, GroupEndName(nr, grp));
    Ok((n3, [GroupEndBlock(succ, end)]))
  }

  // The blocks of a conjunction and the block behind it.
  function CompileGroup(names: Names, nr: int, grp: nat, atoms: seq<Atom>): Result<(Names, seq<Code>)> {
    var (n1, blocks) :- CompileAtoms(names, nr, grp, atoms);
    Prepend(blocks, CompileGroupEnd(n1, nr, grp))
  }

  method BuildGroupEnd(head: FilterBlock, labels: Labels, nr: int, grp: nat, ghost nodes: seq<FilterBlock>)
    returns (r: Result<()>, ghost nodes': seq<FilterBlock>)
    requires Ready(labels) && List(head, nodes).Listing?
    modifies labels, head, nodes
    ensures Ready(labels)
    ensures r.Ok? ==> List(head, nodes').Listing? && Grown(head, nodes, nodes')
    ensures Built(r, labels.names, List(head, nodes')) ==
            Prepend(old(List(head, nodes).blocks), CompileGroupEnd(old(labels.names), nr, grp))
  {
    nodes' := nodes;
    var succ := GetLabelId(labels, SuccessName(nr));
    if succ.Err? {
      return Err(succ.why), nodes';
    }
    var end := GetLabelId(labels, GroupEndName(nr, grp));
    if end.Err? {
      return Err(end.why), nodes';
    }
    nodes' := Append(head, GroupEndBlock(succ.value, end.value), nodes);
    r := Ok(());
  }

  method BuildGroup(head: FilterBlock, labels: Labels, nr: int, grp: nat, atoms: seq<Atom>,
                    ghost nodes: seq<FilterBlock>)
    returns (r: Result<()>, ghost nodes': seq<FilterBlock>)
    requires Ready(labels) && List(head, nodes).Listing?
    modifies labels, head, nodes
    ensures Ready(labels)
    ensures r.Ok? ==> List(head, nodes').Listing? && Grown(head, nodes, nodes')
    ensures Built(r, labels.names, List(head, nodes')) ==
            Prepend(old(List(head, nodes).blocks), CompileGroup(old(labels.names), nr, grp, atoms))
  {
    ghost var first, before := CompileAtoms(labels.names, nr, grp, atoms), List(head, nodes).blocks;
    r, nodes' := BuildConjunction(head, labels, nr, grp, atoms, nodes);
    if r.Err? {
      return;
    }
    PrependTwice(before, first.value.1, CompileGroupEnd(labels.names, nr, grp));
    r, nodes' := BuildGroupEnd(head, labels, nr, grp, nodes');
  }

  lemma GroupsStep(done: seq<Code>, names: Names, nr: int, groups: seq<seq<Atom>>, i: nat)
    requires i < |groups|
    ensures Prepend(done, CompileGroups(names, nr, i, groups[i..])) ==
            match Prepend(done, CompileGroup(names, nr, i, groups[i]))
            case Err(w) => Err(w)
            case Ok((n, blocks)) => Prepend(blocks, CompileGroups(n, nr, i + 1, groups[i + 1..]))
  {
    assert groups[i..][0] == groups[i] && groups[i..][1..] == groups[i + 1..];
    var first := CompileGroup(names, nr, i, groups[i]);
    if first.Ok? {
      PrependTwice(done, first.value.1, CompileGroups(first.value.0, nr, i + 1, groups[i + 1..]));
    }
  }

  lemma GroupsDone(done: seq<Code>, names: Names, nr: int, grp: nat, groups: seq<seq<Atom>>)
    requires groups == []
    ensures Prepend(done, CompileGroups(names, nr, grp, groups)) == Ok((names, done))
  {
    assert done + [] == done;
  }

  // The outer loop of compile_policy_line: the conjunctions of a filter.
  method BuildGroups(head: FilterBlock, labels: Labels, nr: int, groups: seq<seq<Atom>>, ghost nodes: seq<FilterBlock>)
    returns (r: Result<()>, ghost nodes': seq<FilterBlock>)
    requires Ready(labels) && List(head, nodes).Listing?
    modifies labels, head, nodes
    ensures Ready(labels)
    ensures r.Ok? ==> List(head, nodes').Listing? && Grown(head, nodes, nodes')
    ensures Built(r, labels.names, List(head, nodes')) ==
            Prepend(old(List(head, nodes).blocks), CompileGroups(old(labels.names), nr, 0, groups))
  {
    ghost var goal := Prepend(List(head, nodes).blocks, CompileGroups(labels.names, nr, 0, groups));
    var i := 0;
    nodes' := nodes;
    assert groups[0..] == groups;
    while i < |groups|
      invariant 0 <= i <= |groups| && Ready(labels)
      invariant List(head, nodes').Listing? && Grown(head, nodes, nodes')
      invariant goal == Prepend(List(head, nodes').blocks, CompileGroups(labels.names, nr, i, groups[i..]))
    {
      GroupsStep(List(head, nodes').blocks, labels.names, nr, groups, i);
      r, nodes' := BuildGroup(head, labels, nr, i, groups[i], nodes');
      if r.Err? {
        return;
      }
      i := i + 1;
    }
    r := Ok(());
    GroupsDone(List(head, nodes').blocks, labels.names, nr, i, groups[i..]);
  }

  /** compile_policy_line: a fresh list of at least two blocks. */
  method BuildSection(labels: Labels, nr: int, id: Word, body: Body, a: Action, ghost owner: int)
    returns (r: Result<()>, head: FilterBlock, ghost nodes: seq<FilterBlock>)
    requires Ready(labels) && !body.AllowAll?
    modifies labels
    ensures Ready(labels)
    ensures r.Ok? ==> List(head, nodes).Listing? && |List(head, nodes).blocks| >= 2
    ensures fresh(head) && forall i :: 0 <= i < |nodes| ==> fresh(nodes[i]) && nodes[i].owner == owner
    ensures Built(r, labels.names, List(head, nodes)) == CompileSection(old(labels.names), nr, id, body, a)
  {
    hide List, Blocks, CompileGroups;
    head := new FilterBlock(owner);
    EmptyList(head);
    nodes := Append(head, [LabelAt(id)], []);
    assert List(head, nodes).blocks == [[LabelAt(id)]];
    if body.Block? {
      var w := RetWord(body.block, a);
      if w.None? {
        return Err(Rejected), head, [];
      }
      nodes := Append(head, [Stmt(Ret, w.value)], nodes);
      assert List(head, nodes).blocks == ReturnSection(id, w.value);
      r := Ok(());
    } else {
      assert body == Filter(body.groups, body.otherwise);
      SectionAssembled(labels.names, nr, id, body.groups, body.otherwise, a);
      SectionLong(labels.names, nr, id, body, a);
      r, nodes := BuildFilter(head, labels, nr, body.groups, OtherwiseWord(body.otherwise, a), nodes);
    }
  }

  lemma EmptyList(head: FilterBlock)
    requires head.IsEmpty()
    ensures List(head, []) == Listing([])
  {
  }

  lemma SectionLong(names: Names, nr: int, id: Word, body: Body, a: Action)
    requires !body.AllowAll?
    ensures var r := CompileSection(names, nr, id, body, a); r.Ok? ==> |r.value.1| >= 2
  {
  }

  function CompileFilterTail(names: Names, nr: int, groups: seq<seq<Atom>>, w: Option<Word>): Result<(Names,
      seq<Code>)> {
    var (n, blocks) :- CompileGroups(names, nr, 0, groups);
    Prepend(blocks, CompileEnd(n, nr, w))
  }

  // Everything of a filter after its entry label.
  method BuildFilter(head: FilterBlock, labels: Labels, nr: int, groups: seq<seq<Atom>>, w: Option<Word>,
                     ghost nodes: seq<FilterBlock>)
    returns (r: Result<()>, ghost nodes': seq<FilterBlock>)
    requires Ready(labels) && List(head, nodes).Listing?
    modifies labels, head, nodes
    ensures Ready(labels)
    ensures r.Ok? ==> List(head, nodes').Listing?
    ensures Grown(head, nodes, nodes')
    ensures Built(r, labels.names, List(head, nodes')) ==
            Prepend(old(List(head, nodes).blocks), CompileFilterTail(old(labels.names), nr, groups, w))
  {
    ghost var first, before := CompileGroups(labels.names, nr, 0, groups), List(head, nodes).blocks;
    r, nodes' := BuildGroups(head, labels, nr, groups, nodes);
    if r.Err? {
      return r, nodes;
    }
    PrependTwice(before, first.value.1, CompileEnd(labels.names, nr, w));
    r, nodes' := BuildSectionEnd(head, labels, nr, w, nodes');
    if r.Err? {
      return r, nodes;
    }
  }

  // The end of a filter: its return and the success label.
  method BuildSectionEnd(head: FilterBlock, labels: Labels, nr: int, w: Option<Word>, ghost nodes: seq<FilterBlock>)
    returns (r: Result<()>, ghost nodes': seq<FilterBlock>)
    requires Ready(labels) && List(head, nodes).Listing?
    modifies labels, head, nodes
    ensures Ready(labels)
    ensures r.Ok? ==> List(head, nodes').Listing? && Grown(head, nodes, nodes')
    ensures Built(r, labels.names, List(head, nodes')) ==
            Prepend(old(List(head, nodes).blocks), CompileEnd(old(labels.names), nr, w))
  {
    ghost var before := List(head, nodes).blocks;
    nodes' := nodes;
    if w.None? {
      return Err(Rejected), nodes';
    }
    nodes' := Append(head, [Stmt(Ret, w.value)], nodes);
    var succ := GetLabelId(labels, SuccessName(nr));
    if succ.Err? {
      return Err(succ.why), nodes';
    }
    nodes' := Append(head, SuccessBlock(succ.value), nodes');
    r := Ok(());
    ghost var x, y := [[Stmt(Ret, w.value)]], [SuccessBlock(succ.value)];
    assert before + x + y == before + (x + y);
  }

  function CompileEnd(names: Names, nr: int, w: Option<Word>): Result<(Names, seq<Code>)> {
    if w.None? then Err(Rejected)
    else
      var (n, succ) :- GetLabel(names, SuccessName(nr));
      Ok((n, [[Stmt(Ret, w.value)]] + [SuccessBlock(succ)]))
  }

  lemma SectionAssembled(names: Names, nr: int, id: Word, groups: seq<seq<Atom>>, ret: Option<Ret>, a: Action)
    ensures CompileSection(names, nr, id, Filter(groups, ret), a) ==
            Prepend([[LabelAt(id)]], CompileFilterTail(names, nr, groups, OtherwiseWord(ret, a)))
  {
  }
}
