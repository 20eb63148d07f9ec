/** The labels a program places, the labels its jumps name, and its length: what decides whether
    jump resolution accepts it. */
module PolicyLabels {
  import opened Common
  import opened BpfMachine
  import opened BpfEmit
  import opened BpfResolve
  import opened FilterBlocks
  import opened Policy
  import opened PolicyCode

  predicate NoDup<T(==)>(s: seq<T>) { forall i, j :: 0 <= i < j < |s| ==> s[i] != s[j] }

  lemma NoDupCons<T>(x: T, s: seq<T>)
    ensures NoDup([x] + s) <==> x !in s && NoDup(s)
  {
    var t := [x] + s;
    if NoDup(t) {
      forall i, j | 0 <= i < j < |s| ensures s[i] != s[j] {
        assert t[i + 1] != t[j + 1];
      }
      forall i | 0 <= i < |s| ensures s[i] != x {
        assert t[0] != t[i + 1];
      }
    }
  }

  // ----- labels -----

  /** The ids of the labels placed in the code, in order. */
  function LabelIds(c: Code): seq<Word> {
    if c == [] then [] else (if IsLabel(c[0]) then [c[0].k] else []) + LabelIds(c[1..])
  }

  lemma LabelIdsCons(c: Code)
    requires c != []
    ensures LabelIds(c) == (if IsLabel(c[0]) then [c[0].k] else []) + LabelIds(c[1..])
  {
  }

  lemma NoLabelIds()
    ensures LabelIds([]) == []
  {
  }

  lemma {:induction false} LabelIdsConcat(a: Code, b: Code)
    ensures LabelIds(a + b) == LabelIds(a) + LabelIds(b)
  {
    hide LabelIds;
    if a == [] {
      NoLabelIds();
      assert a + b == b && [] + LabelIds(b) == LabelIds(b);
    } else {
      assert (a + b)[0] == a[0] && (a + b)[1..] == a[1..] + b;
      LabelIdsCons(a + b);
      LabelIdsCons(a);
      LabelIdsConcat(a[1..], b);
    }
  }

  lemma {:induction false} LabelIdsAre(c: Code, id: Word)
    ensures id in LabelIds(c) <==> exists i :: 0 <= i < |c| && IsLabel(c[i]) && c[i].k == id
  {
    if c != [] {
      LabelIdsAre(c[1..], id);
      if i :| 0 <= i < |c| && IsLabel(c[i]) && c[i].k == id {
        assert i > 0 ==> c[1..][i - 1] == c[i];
      }
      if i :| 0 <= i < |c[1..]| && IsLabel(c[1..][i]) && c[1..][i].k == id {
        assert c[i + 1] == c[1..][i];
      }
    }
  }

  // A label is placed twice when it comes up twice.
  lemma {:induction false} DistinctIffNoDup(c: Code)
    ensures DistinctLabels(c) <==> NoDup(LabelIds(c))
  {
    if c != [] {
      var rest := c[1..];
      DistinctIffNoDup(rest);
      DistinctCons(c);
      if IsLabel(c[0]) {
        NoDupCons(c[0].k, LabelIds(rest));
      } else {
        assert LabelIds(c) == LabelIds(rest);
      }
    }
  }

  lemma DistinctCons(c: Code)
    requires c != []
    ensures DistinctLabels(c) <==> DistinctLabels(c[1..]) && (IsLabel(c[0]) ==> c[0].k !in LabelIds(c[1..]))
  {
    var rest := c[1..];
    assert forall i :: 0 <= i < |rest| ==> rest[i] == c[i + 1];
    LabelIdsAre(rest, c[0].k);
    if DistinctLabels(c) {
      forall i, j | 0 <= i < j < |rest| && IsLabel(rest[i]) && IsLabel(rest[j]) ensures rest[i].k != rest[j].k {
        assert c[i + 1].k != c[j + 1].k;
      }
      if IsLabel(c[0]) {
        forall i | 0 <= i < |rest| && IsLabel(rest[i]) ensures rest[i].k != c[0].k {
          assert c[i + 1] == rest[i];
        }
      }
    }
    if DistinctLabels(rest) && (IsLabel(c[0]) ==> c[0].k !in LabelIds(rest)) {
      forall i, j | 0 <= i < j < |c| && IsLabel(c[i]) && IsLabel(c[j]) ensures c[i].k != c[j].k {
        assert c[j] == rest[j - 1];
        if i > 0 {
          assert c[i] == rest[i - 1];
        }
      }
    }
  }

  // ----- jumps -----

  /** Every jump names a label placed after it in the code, or one of those beyond. */
  predicate JumpsForward(c: Code, beyond: seq<Word>) {
    c == [] || ((IsJump(c[0]) ==> c[0].k in LabelIds(c[1..]) || c[0].k in beyond) && JumpsForward(c[1..], beyond))
  }

  lemma {:induction false} JumpsConcat(a: Code, b: Code, beyond: seq<Word>)
    requires JumpsForward(a, LabelIds(b) + beyond) && JumpsForward(b, beyond)
    ensures JumpsForward(a + b, beyond)
  {
    if a == [] {
      assert a + b == b;
    } else {
      assert (a + b)[0] == a[0] && (a + b)[1..] == a[1..] + b;
      LabelIdsConcat(a[1..], b);
      JumpsConcat(a[1..], b, beyond);
    }
  }

  lemma {:induction false} JumpsMore(c: Code, beyond: seq<Word>, more: seq<Word>)
    requires JumpsForward(c, beyond) && forall x :: x in beyond ==> x in more
    ensures JumpsForward(c, more)
  {
    if c != [] {
      JumpsMore(c[1..], beyond, more);
    }
  }

  lemma {:induction false} NoJumps(c: Code, beyond: seq<Word>)
    requires forall i :: 0 <= i < |c| ==> c[i].code != Ja
    ensures LabelIds(c) == [] && JumpsForward(c, beyond)
  {
    if c != [] {
      NoJumps(c[1..], beyond);
    }
  }

  lemma {:induction false} JumpTarget(c: Code, i: nat)
    requires JumpsForward(c, []) && i < |c| && IsJump(c[i])
    ensures c[i].k in LabelIds(c[i + 1..])
    decreases i
  {
    if i > 0 {
      assert c[1..][i - 1] == c[i] && c[1..][i..] == c[i + 1..];
      JumpTarget(c[1..], i - 1);
    }
  }

  lemma TargetFound(c: Code, i: nat)
    requires JumpsForward(c, []) && i < |c| && IsJump(c[i])
    ensures FindLabel(c, c[i].k, i + 1) < |c| && c[i].k in LabelIds(c)
  {
    var rest := c[i + 1..];
    JumpTarget(c, i);
    LabelIdsAre(rest, c[i].k);
    var j :| 0 <= j < |rest| && IsLabel(rest[j]) && rest[j].k == c[i].k;
    assert c[i + 1 + j] == rest[j] == LabelAt(c[i].k);
    FindLabelIsFirst(c, c[i].k, i + 1);
    LabelIdsAre(c, c[i].k);
  }

  predicate AllBelow(s: seq<Word>, count: nat) { forall i :: 0 <= i < |s| ==> s[i] < count }

  /** Code whose jumps are all forward is accepted exactly when it is short enough and its labels
      are known and placed once. */
  lemma ForwardResolvable(c: Code, count: nat)
    requires JumpsForward(c, [])
    ensures Resolvable(c, count) <==> |c| <= MAX_INSNS && NoDup(LabelIds(c)) && AllBelow(LabelIds(c), count)
  {
    DistinctIffNoDup(c);
    if Resolvable(c, count) {
      forall k | 0 <= k < |LabelIds(c)| ensures LabelIds(c)[k] < count {
        LabelIdsAre(c, LabelIds(c)[k]);
        var i :| 0 <= i < |c| && IsLabel(c[i]) && c[i].k == LabelIds(c)[k];
        assert ResolvableAt(c, count, i);
      }
    }
    if AllBelow(LabelIds(c), count) {
      forall i | 0 <= i < |c| ensures ResolvableAt(c, count, i) {
        LabelIdsAre(c, c[i].k);
        if IsJump(c[i]) {
          TargetFound(c, i);
        }
      }
    }
  }

  // Id k is outside the table, and the ids behind it are in order.
  predicate StrayId(ids: seq<Word>, count: nat, k: nat) {
    k < |ids| && ids[k] >= count && NoDup(ids[k + 1..]) && AllBelow(ids[k + 1..], count)
  }

  lemma {:induction false} ForwardBehind(c: Code, n: nat)
    requires JumpsForward(c, []) && n <= |c|
    ensures JumpsForward(c[n..], [])
    decreases n
  {
    if n == 0 {
      assert c[0..] == c;
    } else {
      assert c[1..][n - 1..] == c[n..];
      ForwardBehind(c[1..], n - 1);
    }
  }

  // The place of a label among the ids.
  lemma LabelPlace(c: Code, i: nat)
    requires i < |c| && IsLabel(c[i])
    ensures var ids, k := LabelIds(c), |LabelIds(c[..i])|;
            k < |ids| && ids[k] == c[i].k && ids[k + 1..] == LabelIds(c[i + 1..])
  {
    var a, l, b := c[..i], [c[i]], c[i + 1..];
    assert c == a + (l + b);
    LabelIdsConcat(a, l + b);
    LabelIdsConcat(l, b);
    assert l[1..] == [] && LabelIds(l) == [c[i].k];
    hide LabelIds;
    assert (LabelIds(a) + (LabelIds(l) + LabelIds(b)))[|LabelIds(a)| + 1..] == LabelIds(b);
  }

  lemma {:induction false} PlaceOf(c: Code, k: nat) returns (i: nat)
    requires k < |LabelIds(c)|
    ensures i < |c| && IsLabel(c[i]) && |LabelIds(c[..i])| == k
  {
    if IsLabel(c[0]) && k == 0 {
      i := 0;
    } else {
      i := PlaceOf(c[1..], if IsLabel(c[0]) then k - 1 else k);
      i := i + 1;
      assert c[..i][1..] == c[1..][..i - 1] && c[..i][0] == c[0];
    }
  }

  /** Code whose jumps are all forward makes resolution read outside the table exactly when its ids
      have such a place. */
  lemma ForwardStrays(c: Code, count: nat)
    requires JumpsForward(c, [])
    ensures Strays(c, count) <==> |c| <= MAX_INSNS && exists k :: StrayId(LabelIds(c), count, k)
  {
    hide JumpsForward, LabelIds, Resolvable;
    if Strays(c, count) {
      var i :| 0 <= i < |c| && IsLabel(c[i]) && c[i].k >= count && Resolvable(c[i + 1..], count);
      StrayPlace(c, count, i);
      assert StrayId(LabelIds(c), count, |LabelIds(c[..i])|);
    }
    if k :| StrayId(LabelIds(c), count, k) && |c| <= MAX_INSNS {
      var i := PlaceOf(c, k);
      StrayPlace(c, count, i);
    }
  }

  lemma StrayPlace(c: Code, count: nat, i: nat)
    requires JumpsForward(c, []) && i < |c| <= MAX_INSNS && IsLabel(c[i])
    ensures StrayId(LabelIds(c), count, |LabelIds(c[..i])|) <==> c[i].k >= count && Resolvable(c[i + 1..], count)
  {
    hide JumpsForward, LabelIds, Resolvable, NoDup, AllBelow;
    LabelPlace(c, i);
    ForwardBehind(c, i + 1);
    ForwardResolvable(c[i + 1..], count);
  }

  // ----- the pieces of a program -----

  lemma JumpAlone(id: Word, beyond: seq<Word>)
    requires id in beyond
    ensures LabelIds([JumpTo(id)]) == [] && JumpsForward([JumpTo(id)], beyond)
  {
    assert [JumpTo(id)][1..] == [];
  }

  lemma LabelAlone(id: Word, beyond: seq<Word>)
    ensures LabelIds([LabelAt(id)]) == [id] && JumpsForward([LabelAt(id)], beyond)
  {
    assert [LabelAt(id)][1..] == [];
  }

  // Two pieces one after the other.
  lemma Both(a: Code, b: Code, beyond: seq<Word>)
    requires JumpsForward(a, LabelIds(b) + beyond) && JumpsForward(b, beyond)
    ensures LabelIds(a + b) == LabelIds(a) + LabelIds(b) && JumpsForward(a + b, beyond)
  {
    LabelIdsConcat(a, b);
    JumpsConcat(a, b, beyond);
  }

  lemma ArgCompLabels(op: Op, idx: int, c: Quad, end: Word, beyond: seq<Word>)
    requires end in beyond
    ensures LabelIds(ArgComp(op, idx, c, end)) == [] && JumpsForward(ArgComp(op, idx, c, end), beyond)
  {
    var l, m := LoadArg(idx), CompOp(op, c);
    CompOpHasNoJa(op, c);
    hide CompOp, LabelIds, JumpsForward;
    JumpAlone(end, beyond);
    NoJumps(m, LabelIds([JumpTo(end)]) + beyond);
    Both(m, [JumpTo(end)], beyond);
    NoJumps(l, LabelIds(m + [JumpTo(end)]) + beyond);
    Both(l, m + [JumpTo(end)], beyond);
  }

  lemma {:induction false} AtomLabels(atoms: seq<Atom>, end: Word, beyond: seq<Word>)
    requires GoodAtoms(atoms) && end in beyond
    ensures LabelIds(Concat(AtomBlocks(atoms, end))) == [] && JumpsForward(Concat(AtomBlocks(atoms, end)), beyond)
  {
    if atoms != [] {
      var a := atoms[0];
      var first, rest := ArgComp(a.op, a.arg, a.c, end), Concat(AtomBlocks(atoms[1..], end));
      ConcatCons(first, AtomBlocks(atoms[1..], end));
      AtomLabels(atoms[1..], end, beyond);
      hide ArgComp, LabelIds, JumpsForward;
      ArgCompLabels(a.op, a.arg, a.c, end, LabelIds(rest) + beyond);
      Both(first, rest, beyond);
    }
  }

  lemma GroupEndLabels(succ: Word, end: Word, beyond: seq<Word>)
    requires succ in beyond
    ensures LabelIds(GroupEndBlock(succ, end)) == [end] && JumpsForward(GroupEndBlock(succ, end), beyond)
  {
    LabelAlone(end, beyond);
    JumpAlone(succ, LabelIds([LabelAt(end)]) + beyond);
    Both([JumpTo(succ)], [LabelAt(end)], beyond);
    assert GroupEndBlock(succ, end) == [JumpTo(succ)] + [LabelAt(end)];
  }

  // One conjunction with the block after it.
  lemma GroupLabels(atoms: seq<Atom>, succ: Word, end: Word, beyond: seq<Word>)
    requires GoodAtoms(atoms) && succ in beyond
    ensures var c := Concat(AtomBlocks(atoms, end)) + GroupEndBlock(succ, end);
            LabelIds(c) == [end] && JumpsForward(c, beyond)
  {
    hide LabelIds, JumpsForward, GroupEndBlock, Concat;
    GroupEndLabels(succ, end, beyond);
    AtomLabels(atoms, end, LabelIds(GroupEndBlock(succ, end)) + beyond);
    Both(Concat(AtomBlocks(atoms, end)), GroupEndBlock(succ, end), beyond);
  }

  lemma {:induction false} GroupsLabels(groups: seq<seq<Atom>>, succ: Word, ends: seq<Word>, beyond: seq<Word>)
    requires |ends| == |groups| && GoodGroups(groups) && succ in beyond
    ensures var c := Concat(GroupBlocks(groups, succ, ends)); LabelIds(c) == ends && JumpsForward(c, beyond)
  {
    if groups != [] {
      GroupBlocksConcat(groups, succ, ends);
      var first := Concat(AtomBlocks(groups[0], ends[0])) + GroupEndBlock(succ, ends[0]);
      var rest := Concat(GroupBlocks(groups[1..], succ, ends[1..]));
      GroupsLabels(groups[1..], succ, ends[1..], beyond);
      hide LabelIds, JumpsForward, GroupEndBlock, Concat;
      GroupLabels(groups[0], succ, ends[0], LabelIds(rest) + beyond);
      Both(first, rest, beyond);
      assert ends == [ends[0]] + ends[1..];
    }
  }

  lemma SectionEndLabels(w: Word, succ: Word)
    ensures var tail := [Stmt(Ret, w)] + SuccessBlock(succ); LabelIds(tail) == [succ] && JumpsForward(tail, [])
  {
    var r, l, a := [Stmt(Ret, w)], [LabelAt(succ)], [Stmt(Ret, RET_ALLOW)];
    NoJumps(a, []);
    LabelAlone(succ, LabelIds(a) + []);
    Both(l, a, []);
    assert SuccessBlock(succ) == l + a;
    NoJumps(r, LabelIds(l + a) + []);
    Both(r, l + a, []);
  }

  /** A filter section places its entry label, its group ends and its success label, and jumps
      within itself. */
  lemma FilterSectionLabels(id: Word, groups: seq<seq<Atom>>, succ: Word, ends: seq<Word>, w: Word)
    requires |ends| == |groups| && GoodGroups(groups)
    ensures var c := Concat(FilterSection(id, groups, succ, ends, w));
            LabelIds(c) == [id] + ends + [succ] && JumpsForward(c, [])
  {
    hide LabelIds, JumpsForward, SuccessBlock, Concat;
    FilterSectionConcat(id, groups, succ, ends, w);
    var g, tail := Concat(GroupBlocks(groups, succ, ends)), [Stmt(Ret, w)] + SuccessBlock(succ);
    SectionEndLabels(w, succ);
    GroupsLabels(groups, succ, ends, LabelIds(tail) + []);
    Both(g, tail, []);
    LabelAlone(id, LabelIds(g + tail) + []);
    Both([LabelAt(id)], g + tail, []);
  }

  lemma ReturnSectionLabels(id: Word, w: Word)
    ensures var c := Concat(ReturnSection(id, w)); LabelIds(c) == [id] && JumpsForward(c, [])
  {
    ConcatCons([LabelAt(id)], [[Stmt(Ret, w)]]);
    ConcatCons([Stmt(Ret, w)], []);
    assert [[LabelAt(id)]] + [[Stmt(Ret, w)]] == ReturnSection(id, w) && [[Stmt(Ret, w)]] + [] == [[Stmt(Ret, w)]];
    hide Concat;
    NoJumps([Stmt(Ret, w)], []);
    LabelAlone(id, LabelIds([Stmt(Ret, w)]) + []);
    Both([LabelAt(id)], [Stmt(Ret, w)], []);
    assert Concat([]) == [] by { ConcatNothing(); }
  }

  lemma ConcatNothing()
    ensures Concat([]) == []
  {
  }

  // ----- tables and programs -----

  // The entry labels the jump table names.
  function EntryIds(entries: seq<Entry>): seq<Word> {
    if entries == [] then []
    else (match entries[0] case AllowEntry(_) => [] case SectionEntry(_, id, _) => [id]) + EntryIds(entries[1..])
  }

  lemma EntryLabels(x: Entry, beyond: seq<Word>)
    requires x.SectionEntry? ==> x.id in beyond
    ensures LabelIds(EntryCode(x)) == [] && JumpsForward(EntryCode(x), beyond)
  {
    var j := Instr(Jeq, x.nr, 0, 1);
    match x
    case AllowEntry(_) =>
      assert EntryCode(x) == [j, Stmt(Ret, RET_ALLOW)];
      NoJumps(EntryCode(x), beyond);
    case SectionEntry(_, id, _) =>
      JumpAlone(id, beyond);
      NoJumps([j], LabelIds([JumpTo(id)]) + beyond);
      Both([j], [JumpTo(id)], beyond);
      assert EntryCode(x) == [j] + [JumpTo(id)];
  }

  lemma {:induction false} TableLabels(entries: seq<Entry>, beyond: seq<Word>)
    requires forall x :: x in EntryIds(entries) ==> x in beyond
    ensures LabelIds(TableCode(entries)) == [] && JumpsForward(TableCode(entries), beyond)
  {
    if entries != [] {
      var first, rest := EntryCode(entries[0]), TableCode(entries[1..]);
      TableLabels(entries[1..], beyond);
      EntryLabels(entries[0], LabelIds(rest) + beyond);
      hide LabelIds, JumpsForward, EntryCode;
      Both(first, rest, beyond);
    }
  }

  lemma HeadLabels(arch: Word, entries: seq<Entry>, default: Word, beyond: seq<Word>)
    requires forall x :: x in EntryIds(entries) ==> x in beyond
    ensures var c := HeadCode(arch, entries, default); LabelIds(c) == [] && JumpsForward(c, beyond)
  {
    var p, t, d := Prologue(arch), TableCode(entries), [Stmt(Ret, default)];
    NoJumps(d, beyond);
    TableLabels(entries, LabelIds(d) + beyond);
    hide LabelIds, JumpsForward, EntryIds;
    Both(t, d, beyond);
    NoJumps(p, LabelIds(t + d) + beyond);
    Both(p, t + d, beyond);
  }

  // The sections' jumps stay inside, and their entry labels are placed.
  ghost predicate SelfContained(entries: seq<Entry>) {
    forall i :: 0 <= i < |entries| && entries[i].SectionEntry? ==>
      JumpsForward(Concat(entries[i].blocks), []) && entries[i].id in LabelIds(Concat(entries[i].blocks))
  }

  lemma {:induction false} SectionsForward(entries: seq<Entry>)
    requires SelfContained(entries)
    ensures JumpsForward(SectionsCode(entries), [])
    ensures forall x :: x in EntryIds(entries) ==> x in LabelIds(SectionsCode(entries))
  {
    if entries != [] {
      var rest := SectionsCode(entries[1..]);
      forall i | 0 <= i < |entries[1..]| && entries[1..][i].SectionEntry?
        ensures JumpsForward(Concat(entries[1..][i].blocks), [])
        ensures entries[1..][i].id in LabelIds(Concat(entries[1..][i].blocks))
      {
        assert entries[1..][i] == entries[i + 1];
      }
      SectionsForward(entries[1..]);
      hide LabelIds, JumpsForward, Concat;
      match entries[0]
      case AllowEntry(_) => assert SectionsCode(entries) == rest;
      case SectionEntry(_, id, b) =>
        JumpsMore(Concat(b), [], LabelIds(rest) + []);
        Both(Concat(b), rest, []);
    }
  }

  /** In the whole program every jump finds its label, and the labels are those of the sections. */
  lemma ProgramLabels(arch: Word, entries: seq<Entry>, default: Word)
    requires SelfContained(entries)
    ensures var p := ProgramCode(arch, entries, default);
            JumpsForward(p, []) && LabelIds(p) == LabelIds(SectionsCode(entries))
  {
    hide LabelIds, JumpsForward, HeadCode, SectionsCode, EntryIds;
    SectionsForward(entries);
    var s := SectionsCode(entries);
    HeadLabels(arch, entries, default, LabelIds(s) + []);
    Both(HeadCode(arch, entries, default), s, []);
  }
}
