/** The label table while a policy is compiled: what is asked of it, in which order, and which label
    gets which id. */
module PolicyTable {
  import opened Common
  import opened BpfMachine
  import opened BpfEmit
  import opened BpfResolve
  import opened FilterBlocks
  import opened Policy
  import opened PolicyCode
  import opened PolicyLabels
  import opened PolicyValid
  import opened PolicyCompiler

  // ----- what a rule asks for and places -----

  /** The texts of the labels a section places behind its entry label. */
  function InnerTexts(nr: int, body: Body): seq<string> {
    match body
    case Filter(groups, _) => EndNames(nr, 0, |groups|) + [SuccessName(nr)]
    case _ => []
  }

  /** All its labels, in the order of their places. */
  function RuleTexts(name: string, nr: int, body: Body): seq<string> {
    if body.AllowAll? then [] else [name] + InnerTexts(nr, body)
  }

  // The requests made of the table, in their order.
  function AtomAsks(nr: int, grp: nat, n: nat): seq<string> {
    if n == 0 then [] else [GroupEndName(nr, grp)] + AtomAsks(nr, grp, n - 1)
  }

  function GroupsAsks(nr: int, grp: nat, groups: seq<seq<Atom>>): seq<string>
    decreases |groups|
  {
    if groups == [] then []
    else
      AtomAsks(nr, grp, |groups[0]|) +
      ([SuccessName(nr), GroupEndName(nr, grp)] + GroupsAsks(nr, grp + 1, groups[1..]))
  }

  function InnerAsks(nr: int, body: Body): seq<string> {
    match body
    case Filter(groups, _) => GroupsAsks(nr, 0, groups) + [SuccessName(nr)]
    case _ => []
  }

  /** The table after these requests; none when one of them finds no room. */
  function Ask(names: Names, asks: seq<string>): Option<Names>
    decreases |asks|
  {
    if asks == [] then Some(names)
    else
      match Lookup(names, asks[0])
      case (_, None) => None
      case (n, Some(_)) => Ask(n, asks[1..])
  }

  function AskThen(r: Option<Names>, asks: seq<string>): Option<Names> {
    match r case None => None case Some(n) => Ask(n, asks)
  }

  lemma {:induction false} AskConcat(names: Names, a: seq<string>, b: seq<string>)
    ensures Ask(names, a + b) == AskThen(Ask(names, a), b)
    decreases |a|
  {
    if a == [] {
      assert a + b == b;
    } else {
      assert (a + b)[0] == a[0] && (a + b)[1..] == a[1..] + b;
      hide Lookup;
      match Lookup(names, a[0])
      case (_, None) =>
      case (n, Some(_)) => AskConcat(n, a[1..], b);
    }
  }

  // ----- the compiler asks exactly that -----

  function NamesOf<T>(r: Result<(Names, T)>): Option<Names> {
    match r case Err(_) => None case Ok((n, _)) => Some(n)
  }

  lemma {:induction false} AtomsAsk(names: Names, nr: int, grp: nat, atoms: seq<Atom>)
    ensures NamesOf(CompileAtoms(names, nr, grp, atoms)) ==
            if GoodAtoms(atoms) then Ask(names, AtomAsks(nr, grp, |atoms|)) else None
    decreases |atoms|
  {
    hide Lookup, GroupEndName, ArgComp;
    if atoms != [] {
      GoodAtomsSplits(atoms);
      var end := GroupEndName(nr, grp);
      assert AtomAsks(nr, grp, |atoms|)[1..] == AtomAsks(nr, grp, |atoms| - 1);
      match Lookup(names, end)
      case (_, None) =>
      case (n, Some(_)) => AtomsAsk(n, nr, grp, atoms[1..]);
    }
  }

  lemma AskNext(names: Names, s: string, rest: seq<string>)
    ensures Ask(names, [s] + rest) == if Lookup(names, s).1.Some? then Ask(Lookup(names, s).0, rest) else None
  {
    hide Lookup;
    assert ([s] + rest)[1..] == rest;
  }

  lemma {:induction false} GroupsAsk(names: Names, nr: int, grp: nat, groups: seq<seq<Atom>>)
    ensures NamesOf(CompileGroups(names, nr, grp, groups)) ==
            if GoodGroups(groups) then Ask(names, GroupsAsks(nr, grp, groups)) else None
    decreases |groups|
  {
    hide Lookup, GroupEndName, SuccessName, GoodAtoms, CompileAtoms;
    if groups != [] {
      GoodGroupsSplits(groups);
      hide GoodGroups;
      var a, succ, end := AtomAsks(nr, grp, |groups[0]|), SuccessName(nr), GroupEndName(nr, grp);
      var rest := GroupsAsks(nr, grp + 1, groups[1..]);
      AtomsAsk(names, nr, grp, groups[0]);
      AskConcat(names, a, [succ, end] + rest);
      var r1 := CompileAtoms(names, nr, grp, groups[0]);
      if r1.Ok? {
        var n1 := r1.value.0;
        var n2 := Lookup(n1, succ).0;
        assert [succ, end] + rest == [succ] + ([end] + rest);
        AskNext(n1, succ, [end] + rest);
        AskNext(n2, end, rest);
        hide Ask;
        GroupsAsk(Lookup(n2, end).0, nr, grp + 1, groups[1..]);
      }
    }
  }

  /** A section compiles exactly when its body is well formed and the table has room for its labels. */
  lemma SectionAsk(names: Names, nr: int, id: Word, body: Body, a: Action)
    requires !body.AllowAll?
    ensures NamesOf(CompileSection(names, nr, id, body, a)) ==
            if GoodBody(body, a) then Ask(names, InnerAsks(nr, body)) else None
  {
    hide Lookup, GroupEndName, SuccessName, CompileGroups, GoodGroups, GroupsAsks;
    match body
    case Block(_) =>
    case Filter(groups, ret) =>
      GroupsAsk(names, nr, 0, groups);
      AskConcat(names, GroupsAsks(nr, 0, groups), [SuccessName(nr)]);
      var r := CompileGroups(names, nr, 0, groups);
      if r.Ok? {
        assert [SuccessName(nr)] + [] == [SuccessName(nr)];
        AskNext(r.value.0, SuccessName(nr), []);
      }
  }

  // ----- the table over the lines of a policy -----

  /** The table after a rule; the request for its entry label is not checked. */
  function RuleTable(names: Names, name: string, nr: int, body: Body): Option<Names> {
    if body.AllowAll? then Some(names) else Ask(Lookup(names, name).0, InnerAsks(nr, body))
  }

  function Falses(n: nat): seq<bool> { seq(n, _ => false) }

  // Which of the rule's labels have no place in the table: at most the entry label.
  function RuleMarks(names: Names, name: string, nr: int, body: Body): (r: seq<bool>)
    ensures |r| == |RuleTexts(name, nr, body)|
  {
    if body.AllowAll? then [] else [Lookup(names, name).1.None?] + Falses(|InnerTexts(nr, body)|)
  }

  // A rule with a known system call.
  predicate Known(table: seq<Syscall>, line: Line) { line.Rule? && LookupSyscall(table, line.name).0 >= 0 }

  function LineTexts(table: seq<Syscall>, line: Line): seq<string> {
    if Known(table, line) then RuleTexts(line.name, LookupSyscall(table, line.name).0, line.body) else []
  }

  function LineTable(table: seq<Syscall>, line: Line, names: Names): Option<Names> {
    if Known(table, line) then RuleTable(names, line.name, LookupSyscall(table, line.name).0, line.body)
    else Some(names)
  }

  function LineMarks(table: seq<Syscall>, line: Line, names: Names): seq<bool> {
    if Known(table, line) then RuleMarks(names, line.name, LookupSyscall(table, line.name).0, line.body) else []
  }

  /** The labels of a policy in the order of their places, the table after all its requests, and
      which labels have no place in it. */
  function Texts(table: seq<Syscall>, lines: seq<Line>): seq<string> {
    if lines == [] then [] else LineTexts(table, lines[0]) + Texts(table, lines[1..])
  }

  function TableAfter(table: seq<Syscall>, lines: seq<Line>, names: Names): Option<Names> {
    if lines == [] then Some(names)
    else match LineTable(table, lines[0], names)
      case None => None
      case Some(n) => TableAfter(table, lines[1..], n)
  }

  function Marks(table: seq<Syscall>, lines: seq<Line>, names: Names): seq<bool> {
    if lines == [] then []
    else
      LineMarks(table, lines[0], names) +
      match LineTable(table, lines[0], names)
      case None => []
      case Some(n) => Marks(table, lines[1..], n)
  }

  // ----- how the table grows -----

  predicate AllShort(names: seq<string>) { forall i :: 0 <= i < |names| ==> |names[i]| <= MAX_LABEL_LEN }

  // New entries are among the texts, each found at its own place first.
  predicate GrownBy(base: Names, names: Names, texts: seq<string>) {
    && base <= names
    && forall i :: |base| <= i < |names| ==> names[i] in texts && names[i] !in names[..i]
  }

  lemma LookupGrown(base: Names, names: Names, s: string, texts: seq<string>)
    requires GrownBy(base, names, texts) && s in texts && |s| <= MAX_LABEL_LEN
    ensures GrownBy(base, Lookup(names, s).0, texts)
    ensures |base| + |texts| <= LABELS_MAX ==> Lookup(names, s).1.Some?
  {
    var n := Lookup(names, s).0;
    if s !in names {
      var added := names[|base|..] + [s];
      NewAreDistinct(base, names, s, texts);
      DistinctFits(added, texts);
    } else {
      assert IndexOf(names, s, 0) < |names|;
    }
    if n != names {
      forall i | |base| <= i < |n| ensures n[i] in texts && n[i] !in n[..i] {
        assert i < |names| ==> n[..i] == names[..i];
        assert i == |names| ==> n[..i] == names;
      }
    }
  }

  lemma NewAreDistinct(base: Names, names: Names, s: string, texts: seq<string>)
    requires GrownBy(base, names, texts) && s in texts && s !in names
    ensures var added := names[|base|..] + [s]; NoDup(added) && forall i :: 0 <= i < |added| ==> added[i] in texts
  {
    var added := names[|base|..] + [s];
    forall i, j | 0 <= i < j < |added| ensures added[i] != added[j] {
      if j < |added| - 1 {
        assert added[i] == names[..|base| + j][|base| + i];
      }
    }
  }

  lemma {:induction false} DistinctFits<T>(s: seq<T>, all: seq<T>)
    requires NoDup(s) && forall i :: 0 <= i < |s| ==> s[i] in all
    ensures |s| <= |all|
  {
    NoDupFits(s, set x | x in all);
    ElemsFit(all);
  }

  lemma {:induction false} NoDupFits<T>(s: seq<T>, all: set<T>)
    requires NoDup(s) && forall i :: 0 <= i < |s| ==> s[i] in all
    ensures |s| <= |all|
    decreases |s|
  {
    if s != [] {
      var init, x := s[..|s| - 1], s[|s| - 1];
      assert forall i :: 0 <= i < |init| ==> init[i] == s[i] && s[i] != x;
      NoDupFits(init, all - {x});
    }
  }

  lemma {:induction false} ElemsFit<T>(s: seq<T>)
    ensures |(set x | x in s)| <= |s|
    decreases |s|
  {
    if s != [] {
      ElemsFit(s[1..]);
      assert (set x | x in s) == (set x | x in s[1..]) + {s[0]};
    }
  }

  predicate AllIn(some: seq<string>, all: seq<string>) { forall i :: 0 <= i < |some| ==> some[i] in all }

  // Requests for some of these texts, short ones, add each of them at most once.
  lemma {:induction false} AskGrows(base: Names, names: Names, asks: seq<string>, texts: seq<string>)
    requires GrownBy(base, names, texts) && AllIn(asks, texts) && AllShort(asks)
    ensures Ask(names, asks).Some? ==> GrownBy(base, Ask(names, asks).value, texts)
    ensures |base| + |texts| <= LABELS_MAX ==> Ask(names, asks).Some?
    decreases |asks|
  {
    hide GrownBy, Lookup;
    if asks != [] {
      LookupGrown(base, names, asks[0], texts);
      assert forall i :: 0 <= i < |asks[1..]| ==> asks[1..][i] == asks[i + 1];
      match Lookup(names, asks[0])
      case (_, None) =>
      case (n, Some(_)) => AskGrows(base, n, asks[1..], texts);
    }
  }

  // Short texts, all of them among the others.
  predicate ShortIn(some: seq<string>, all: seq<string>) { AllIn(some, all) && AllShort(some) }

  lemma ShortInBoth(a: seq<string>, b: seq<string>, all: seq<string>)
    requires ShortIn(a, all) && ShortIn(b, all)
    ensures ShortIn(a + b, all)
  {
  }

  lemma ShortInOne(s: string, all: seq<string>)
    requires s in all && |s| <= MAX_LABEL_LEN
    ensures ShortIn([s], all)
  {
  }

  lemma {:induction false} AtomAsksIn(nr: int, grp: nat, n: nat, all: seq<string>)
    requires GroupEndName(nr, grp) in all
    ensures ShortIn(AtomAsks(nr, grp, n), all)
    decreases n
  {
    NameLengths(nr, grp);
    hide GroupEndName;
    if n > 0 {
      AtomAsksIn(nr, grp, n - 1, all);
      hide ShortIn;
      ShortInOne(GroupEndName(nr, grp), all);
      ShortInBoth([GroupEndName(nr, grp)], AtomAsks(nr, grp, n - 1), all);
    }
  }

  // What the groups ask for is what they place.
  lemma {:induction false} GroupsAsksIn(nr: int, grp: nat, groups: seq<seq<Atom>>, all: seq<string>)
    requires AllIn(EndNames(nr, grp, |groups|), all) && SuccessName(nr) in all
    ensures ShortIn(GroupsAsks(nr, grp, groups), all)
    decreases |groups|
  {
    NameLengths(nr, grp);
    hide GroupEndName, SuccessName;
    if groups != [] {
      var succ, end, rest := SuccessName(nr), GroupEndName(nr, grp), GroupsAsks(nr, grp + 1, groups[1..]);
      FirstEnd(nr, grp, |groups|, all);
      hide AllIn, ShortIn, EndNames;
      AtomAsksIn(nr, grp, |groups[0]|, all);
      GroupsAsksIn(nr, grp + 1, groups[1..], all);
      ShortInOne(succ, all);
      ShortInOne(end, all);
      ShortInBoth([succ], [end], all);
      assert [succ] + [end] == [succ, end];
      ShortInBoth([succ, end], rest, all);
      ShortInBoth(AtomAsks(nr, grp, |groups[0]|), [succ, end] + rest, all);
    }
  }

  lemma FirstEnd(nr: int, grp: nat, n: nat, all: seq<string>)
    requires n > 0 && AllIn(EndNames(nr, grp, n), all)
    ensures GroupEndName(nr, grp) in all && AllIn(EndNames(nr, grp + 1, n - 1), all)
  {
    hide GroupEndName;
    var ends, rest := EndNames(nr, grp, n), EndNames(nr, grp + 1, n - 1);
    assert ends[0] == GroupEndName(nr, grp);
    assert forall i :: 0 <= i < |rest| ==> rest[i] == ends[i + 1];
  }

  lemma NameLengths(nr: int, grp: nat)
    ensures |GroupEndName(nr, grp)| <= MAX_LABEL_LEN && |SuccessName(nr)| <= MAX_LABEL_LEN
  {
  }

  lemma InnerAsksIn(nr: int, body: Body)
    ensures AllIn(InnerAsks(nr, body), InnerTexts(nr, body)) && AllShort(InnerAsks(nr, body))
  {
    NameLengths(nr, 0);
    hide GroupEndName, SuccessName, GroupsAsks, EndNames;
    if body.Filter? {
      var all := InnerTexts(nr, body);
      assert all[|all| - 1] == SuccessName(nr);
      assert forall i :: 0 <= i < |body.groups| ==> all[i] == EndNames(nr, 0, |body.groups|)[i];
      GroupsAsksIn(nr, 0, body.groups, all);
      ShortInOne(SuccessName(nr), all);
      ShortInBoth(GroupsAsks(nr, 0, body.groups), [SuccessName(nr)], all);
    }
  }

  lemma {:induction false} EndNamesShort(nr: int, grp: nat, n: nat)
    ensures AllShort(EndNames(nr, grp, n))
    decreases n
  {
    NameLengths(nr, grp);
    hide GroupEndName;
    if n > 0 {
      EndNamesShort(nr, grp + 1, n - 1);
    }
  }

  lemma InnerTextsShort(nr: int, body: Body)
    ensures AllShort(InnerTexts(nr, body))
  {
    NameLengths(nr, 0);
    if body.Filter? {
      EndNamesShort(nr, 0, |body.groups|);
    }
    hide EndNames, SuccessName;
  }

  // ----- which label gets which id -----

  /** No label finds an earlier one stored under its own text. A text that does not fit is stored cut
      and never found again. */
  predicate Fresh(texts: seq<string>) {
    forall j, k :: 0 <= j < k < |texts| ==> |texts[k]| > MAX_LABEL_LEN || Stored(texts[j]) != texts[k]
  }

  predicate Unmarked(marks: seq<bool>) { forall k :: 0 <= k < |marks| ==> !marks[k] }

  // The ids of the marked labels, and of no others, are not in the table.
  predicate Marked(ids: seq<Word>, marks: seq<bool>) {
    |ids| == |marks| && forall k :: 0 <= k < |ids| ==> (ids[k] == UNRESOLVED <==> marks[k])
  }

  predicate Spelled(names: Names, ids: seq<Word>, texts: seq<string>) {
    |ids| == |texts| && forall k :: 0 <= k < |ids| && ids[k] != UNRESOLVED ==>
      ids[k] < |names| && names[ids[k]] == Stored(texts[k])
  }

  // Every label of the table has a place.
  predicate Covered(names: Names, ids: seq<Word>) { forall i: Word :: i < |names| ==> i in ids }

  // Behind a marked label the table is full, and every label placed there is found in it.
  predicate FoundBehind(names: Names, ids: seq<Word>, texts: seq<string>) {
    |ids| == |texts| && forall j, k :: 0 <= j < k < |ids| && ids[j] == UNRESOLVED && ids[k] != UNRESOLVED ==>
      |texts[k]| <= MAX_LABEL_LEN && ids[k] == IndexOf(names, texts[k], 0)
  }

  predicate FullIfMarked(names: Names, ids: seq<Word>) { UNRESOLVED in ids ==> |names| == LABELS_MAX }

  // As long as all labels are in the table, an id comes up twice exactly when a text does.
  predicate SameRepeats(ids: seq<Word>, texts: seq<string>) {
    UNRESOLVED !in ids ==> (NoDup(ids) <==> Fresh(texts))
  }

  /** The ids of the labels placed so far, against their texts and the table. */
  predicate Tied(names: Names, ids: seq<Word>, texts: seq<string>, marks: seq<bool>) {
    && AllShort(names) && Marked(ids, marks) && Spelled(names, ids, texts) && Covered(names, ids)
    && FoundBehind(names, ids, texts) && FullIfMarked(names, ids) && SameRepeats(ids, texts)
  }

  lemma NoDupSnoc<T>(s: seq<T>, x: T)
    ensures NoDup(s + [x]) <==> NoDup(s) && x !in s
  {
    var t := s + [x];
    if NoDup(t) {
      forall i, j | 0 <= i < j < |s| ensures s[i] != s[j] {
        assert t[i] != t[j];
      }
      forall i | 0 <= i < |s| ensures s[i] != x {
        assert t[i] != t[|s|];
      }
    }
  }

  lemma FreshSnoc(texts: seq<string>, t: string)
    ensures Fresh(texts + [t]) <==>
            Fresh(texts) && (|t| > MAX_LABEL_LEN || forall j :: 0 <= j < |texts| ==> Stored(texts[j]) != t)
  {
    hide Stored;
    var more := texts + [t];
    if Fresh(more) {
      forall j, k | 0 <= j < k < |texts| ensures |texts[k]| > MAX_LABEL_LEN || Stored(texts[j]) != texts[k] {
        assert more[j] == texts[j] && more[k] == texts[k];
      }
      forall j | 0 <= j < |texts| ensures |t| > MAX_LABEL_LEN || Stored(texts[j]) != t {
        assert more[j] == texts[j] && more[|texts|] == t;
      }
    }
  }

  // ----- the entry label -----

  // The table after a request, found or not.
  lemma LookupCases(names: Names, s: string)
    requires AllShort(names)
    ensures var (n, found) := Lookup(names, s);
      && names <= n && AllShort(n) && |n| <= |names| + 1
      && (s in names ==> n == names && found.Some? && found.value == IndexOf(names, s, 0) < |names|
                         && |s| <= MAX_LABEL_LEN)
      && (s !in names && |names| < LABELS_MAX ==> n == names + [Stored(s)] && found == Some(|names|))
      && (s !in names && |names| == LABELS_MAX ==> n == names && found.None?)
  {
    if s in names {
      var i :| 0 <= i < |names| && names[i] == s;
      assert IndexOf(names, s, 0) <= i;
    }
  }

  lemma {:induction false} IndexStable(names: Names, later: Names, s: string)
    requires names <= later && s in names
    ensures IndexOf(later, s, 0) == IndexOf(names, s, 0) < |names|
  {
    var i := IndexOf(names, s, 0);
    var k :| 0 <= k < |names| && names[k] == s;
    assert i <= k;
    assert later[i] == s && forall j :: 0 <= j < i ==> later[j] == names[j];
  }

  // Whether a new id repeats an old one, by its text.
  lemma EntryRepeats(names: Names, ids: seq<Word>, texts: seq<string>, s: string)
    requires Spelled(names, ids, texts) && Covered(names, ids) && AllShort(names)
    requires UNRESOLVED !in ids && Lookup(names, s).1.Some?
    ensures Lookup(names, s).1.value !in ids <==>
            |s| > MAX_LABEL_LEN || forall j :: 0 <= j < |texts| ==> Stored(texts[j]) != s
  {
    LookupCases(names, s);
    var x := Lookup(names, s).1.value;
    hide Lookup, Stored;
    if s in names {
      assert x in ids;
      var k :| 0 <= k < |ids| && ids[k] == x;
      assert Stored(texts[k]) == s;
    } else {
      forall j | 0 <= j < |texts| ensures Stored(texts[j]) != s && ids[j] != x {
        assert names[ids[j]] == Stored(texts[j]);
      }
    }
  }

  lemma TiedEntry(names: Names, ids: seq<Word>, texts: seq<string>, marks: seq<bool>, s: string)
    requires Tied(names, ids, texts, marks)
    ensures var (n, found) := Lookup(names, s);
            Tied(n, ids + [EntryId(found)], texts + [s], marks + [found.None?])
  {
    var (n, found) := Lookup(names, s);
    LookupCases(names, s);
    EntryKept(names, n, ids, texts, s, found);
    EntryPlaced(names, n, ids, texts, s, found);
    EntrySame(names, ids, texts, s);
    EntryMarked(ids, marks, found);
    hide Lookup, Marked, Spelled, Covered, FoundBehind, FullIfMarked, AllShort, SameRepeats;
  }

  lemma EntryMarked(ids: seq<Word>, marks: seq<bool>, found: Option<Word>)
    requires Marked(ids, marks) && (found.Some? ==> found.value < UNRESOLVED)
    ensures Marked(ids + [EntryId(found)], marks + [found.None?])
  {
  }

  lemma EntrySame(names: Names, ids: seq<Word>, texts: seq<string>, s: string)
    requires Spelled(names, ids, texts) && Covered(names, ids) && AllShort(names) && SameRepeats(ids, texts)
    ensures SameRepeats(ids + [EntryId(Lookup(names, s).1)], texts + [s])
  {
    var id := EntryId(Lookup(names, s).1);
    if UNRESOLVED !in ids && Lookup(names, s).1.Some? {
      EntryRepeats(names, ids, texts, s);
      NoDupSnoc(ids, id);
      FreshSnoc(texts, s);
    }
    hide Lookup, NoDup, Fresh, Spelled, Covered, AllShort;
  }

  lemma EntryPlaced(names: Names, n: Names, ids: seq<Word>, texts: seq<string>, s: string, found: Option<Word>)
    requires Spelled(names, ids, texts) && Covered(names, ids) && AllShort(names)
    requires Lookup(names, s) == (n, found)
    ensures Spelled(n, ids + [EntryId(found)], texts + [s]) && Covered(n, ids + [EntryId(found)])
    ensures found.Some? ==> found.value < UNRESOLVED
  {
    LookupCases(names, s);
    hide Lookup;
    assert |s| <= MAX_LABEL_LEN ==> Stored(s) == s;
    hide Stored;
  }

  lemma EntryKept(names: Names, n: Names, ids: seq<Word>, texts: seq<string>, s: string, found: Option<Word>)
    requires FoundBehind(names, ids, texts) && FullIfMarked(names, ids) && AllShort(names) && names <= n
    requires Lookup(names, s) == (n, found)
    ensures FoundBehind(n, ids + [EntryId(found)], texts + [s]) && FullIfMarked(n, ids + [EntryId(found)])
  {
    LookupCases(names, s);
    hide Lookup;
  }

  // ----- the labels inside a section -----

  lemma TiedInner(names: Names, later: Names, ids: seq<Word>, texts: seq<string>, marks: seq<bool>,
                  inner: seq<Word>, more: seq<string>)
    requires Tied(names, ids, texts, marks)
    requires GrownBy(names, later, more) && AllShort(more) && AllNamed(later, inner, more)
    ensures Tied(later, ids + inner, texts + more, marks + Falses(|more|))
  {
    InnerGrown(names, later, more);
    InnerMarked(ids, marks, later, inner, more);
    InnerSpelled(names, later, ids, texts, inner, more);
    InnerCovered(names, later, ids, inner, more);
    InnerFound(names, later, ids, texts, inner, more);
    if UNRESOLVED !in ids {
      InnerRepeats(names, later, ids, texts, inner, more, |more|);
      assert inner[..|more|] == inner && more[..|more|] == more;
    }
    hide AllNamed, GrownBy, AllShort, Marked, Spelled, Covered, FoundBehind, NoDup, Fresh;
    InnerResolved(later, inner, more);
  }

  lemma InnerResolved(later: Names, inner: seq<Word>, more: seq<string>)
    requires AllNamed(later, inner, more)
    ensures UNRESOLVED !in inner
  {
  }

  lemma InnerGrown(names: Names, later: Names, more: seq<string>)
    requires GrownBy(names, later, more) && AllShort(names) && AllShort(more)
    ensures AllShort(later) && (|names| == LABELS_MAX ==> later == names)
  {
    forall i | 0 <= i < |later| ensures |later[i]| <= MAX_LABEL_LEN {
      if i < |names| {
        assert later[i] == names[i];
      }
    }
  }

  lemma InnerMarked(ids: seq<Word>, marks: seq<bool>, later: Names, inner: seq<Word>, more: seq<string>)
    requires Marked(ids, marks) && AllNamed(later, inner, more)
    ensures Marked(ids + inner, marks + Falses(|more|))
  {
    var m := marks + Falses(|more|);
    forall k | 0 <= k < |ids + inner| ensures (ids + inner)[k] == UNRESOLVED <==> m[k] {
      if k >= |ids| {
        assert Named(later, inner[k - |ids|], more[k - |ids|]);
      }
    }
  }

  lemma NamedIs(names: Names, id: Word, s: string)
    requires Named(names, id, s) && |s| <= MAX_LABEL_LEN
    ensures id < |names| && names[id] == s == Stored(s)
  {
  }

  lemma InnerSpelled(names: Names, later: Names, ids: seq<Word>, texts: seq<string>, inner: seq<Word>,
                     more: seq<string>)
    requires Spelled(names, ids, texts) && names <= later && AllShort(more) && AllNamed(later, inner, more)
    ensures Spelled(later, ids + inner, texts + more)
  {
    hide Stored, Named;
    forall k | |ids| <= k < |ids + inner|
      ensures (ids + inner)[k] < |later| && later[(ids + inner)[k]] == Stored((texts + more)[k])
    {
      NamedIs(later, inner[k - |ids|], more[k - |ids|]);
    }
  }

  lemma InnerCovered(names: Names, later: Names, ids: seq<Word>, inner: seq<Word>, more: seq<string>)
    requires Covered(names, ids) && GrownBy(names, later, more) && AllNamed(later, inner, more)
    ensures Covered(later, ids + inner)
  {
    forall i: Word | i < |later| ensures i in ids + inner {
      if i >= |names| {
        var k :| 0 <= k < |more| && more[k] == later[i];
        assert Named(later, inner[k], more[k]);
        FirstAt(later, i);
      }
    }
  }

  lemma FirstAt(names: Names, i: nat)
    requires i < |names| && names[i] !in names[..i]
    ensures IndexOf(names, names[i], 0) == i
  {
    forall j | 0 <= j < i ensures names[j] != names[i] {
      assert names[..i][j] == names[j];
    }
  }

  lemma InnerFound(names: Names, later: Names, ids: seq<Word>, texts: seq<string>, inner: seq<Word>, more: seq<string>)
    requires FoundBehind(names, ids, texts) && FullIfMarked(names, ids)
    requires |names| == LABELS_MAX ==> later == names
    requires |names| <= |later| && AllShort(more) && AllNamed(later, inner, more)
    ensures FoundBehind(later, ids + inner, texts + more) && FullIfMarked(later, ids + inner)
  {
    InnerResolved(later, inner, more);
    var all, t := ids + inner, texts + more;
    forall j, k | 0 <= j < k < |all| && all[j] == UNRESOLVED && all[k] != UNRESOLVED
      ensures |t[k]| <= MAX_LABEL_LEN && all[k] == IndexOf(later, t[k], 0)
    {
      assert j < |ids| && ids[j] == UNRESOLVED;
      if k >= |ids| {
        assert Named(later, inner[k - |ids|], more[k - |ids|]);
      }
    }
  }

  // The same equivalence after the first m of them.
  lemma {:induction false} InnerRepeats(names: Names, later: Names, ids: seq<Word>, texts: seq<string>,
                                        inner: seq<Word>, more: seq<string>, m: nat)
    requires Spelled(names, ids, texts) && Covered(names, ids) && SameRepeats(ids, texts) && UNRESOLVED !in ids
    requires names <= later && AllShort(more) && AllNamed(later, inner, more) && m <= |more|
    ensures NoDup(ids + inner[..m]) <==> Fresh(texts + more[..m])
    decreases m
  {
    hide NoDup, Fresh, Spelled, Covered, AllNamed;
    if m == 0 {
      assert ids + inner[..0] == ids && texts + more[..0] == texts;
    } else {
      SameLength(later, inner, more);
      InnerRepeats(names, later, ids, texts, inner, more, m - 1);
      var before, said := ids + inner[..m - 1], texts + more[..m - 1];
      assert ids + inner[..m] == before + [inner[m - 1]] && texts + more[..m] == said + [more[m - 1]];
      NoDupSnoc(before, inner[m - 1]);
      FreshSnoc(said, more[m - 1]);
      InnerRepeat(names, later, ids, texts, inner, more, m - 1);
    }
  }

  lemma SameLength(later: Names, inner: seq<Word>, more: seq<string>)
    requires AllNamed(later, inner, more)
    ensures |inner| == |more|
  {
  }

  lemma InnerRepeat(names: Names, later: Names, ids: seq<Word>, texts: seq<string>,
                    inner: seq<Word>, more: seq<string>, m: nat)
    requires Spelled(names, ids, texts) && Covered(names, ids) && UNRESOLVED !in ids
    requires names <= later && AllShort(more) && AllNamed(later, inner, more) && m < |more|
    ensures inner[m] !in ids + inner[..m] <==>
            forall j :: 0 <= j < |texts| + m ==> Stored((texts + more[..m])[j]) != more[m]
  {
    var x, s := inner[m], more[m];
    var before, said := ids + inner[..m], texts + more[..m];
    NamedIs(later, x, s);
    if x in before {
      var k :| 0 <= k < |before| && before[k] == x;
      RepeatSpelled(names, later, ids, texts, inner, more, m, k);
    }
    forall j | 0 <= j < |said| && Stored(said[j]) == s ensures x in before {
      RepeatFound(names, later, ids, texts, inner, more, m, j);
    }
  }

  // The label at place k of what came before is stored under its text.
  lemma RepeatSpelled(names: Names, later: Names, ids: seq<Word>, texts: seq<string>,
                      inner: seq<Word>, more: seq<string>, m: nat, k: nat)
    requires Spelled(names, ids, texts) && UNRESOLVED !in ids && names <= later
    requires AllShort(more) && AllNamed(later, inner, more) && m < |more| && k < |ids| + m
    ensures var x := (ids + inner[..m])[k]; x < |later| && later[x] == Stored((texts + more[..m])[k])
  {
    if k < |ids| {
      assert later[ids[k]] == names[ids[k]];
    } else {
      NamedIs(later, inner[k - |ids|], more[k - |ids|]);
    }
  }

  lemma RepeatFound(names: Names, later: Names, ids: seq<Word>, texts: seq<string>,
                    inner: seq<Word>, more: seq<string>, m: nat, j: nat)
    requires Spelled(names, ids, texts) && Covered(names, ids) && UNRESOLVED !in ids && names <= later
    requires AllShort(more) && AllNamed(later, inner, more) && m < |more| && j < |ids| + m
    requires Stored((texts + more[..m])[j]) == more[m]
    ensures inner[m] in ids + inner[..m]
  {
    var s := more[m];
    assert Named(later, inner[m], s);
    if j < |ids| {
      assert names[ids[j]] == s;
      IndexStable(names, later, s);
      assert inner[m] in ids;
    } else {
      NamedIs(later, inner[j - |ids|], more[j - |ids|]);
      assert Named(later, inner[j - |ids|], more[j - |ids|]);
      assert inner[..m][j - |ids|] == inner[m];
    }
  }
}
