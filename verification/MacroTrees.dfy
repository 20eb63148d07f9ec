/** What documents declare, read off their trees: the partner of the scan and the literal pass. */
module MacroTrees {
  import opened Common
  import opened MacroCatalog

  // ----- static texts -----

  // The words one after the other.
  function Concatenated(words: seq<string>): string {
    if words == [] then "" else Concatenated(words[..|words| - 1]) + words[|words| - 1]
  }

  function Node(tag: string, children: seq<Tree>): Tree { Tree(Some(tag), children) }

  lemma LiteralText(text: string, scope: Scope)
    ensures StaticText(Leaf(text, false), scope) == Ok(Some(text)) && StaticText(Leaf(text, true), scope) == Err
  {
  }

  // An argument stands for what its parameter, named without any scope, is bound to.
  lemma ArgumentText(t: Tree, scope: Scope)
    ensures StaticText(Node("arg", [t]), scope) ==
      match StaticText(t, map[])
      case Err => Err
      case Ok(None) => Ok(None)
      case Ok(Some(param)) => Ok(if param in scope then scope[param] else None)
  {
  }

  lemma UnnamedText(t: Tree, scope: Scope)
    requires t.Tree? && !Tagged(t, "merge") && (|t.children| == 1 ==> !Tagged(t, "arg") && !Tagged(t, "unquote"))
    ensures StaticText(t, scope) == Ok(None)
  {
  }

  lemma UnquotedText(t: Tree, scope: Scope)
    ensures StaticText(Node("unquote", [t]), scope) == StaticText(t, scope)
  {
  }

  lemma {:induction false} TextsAre(t: Tree, n: nat, words: seq<string>, scope: Scope)
    requires t.Tree? && n <= |t.children| == |words|
    requires forall i :: 0 <= i < n ==> StaticText(t.children[i], scope) == Ok(Some(words[i]))
    ensures var r := StaticTexts(t, n, scope);
      r.Ok? && |r.value| == n && forall i :: 0 <= i < n ==> r.value[i] == Some(words[i])
    decreases n
  {
    hide StaticText;
    if n > 0 {
      TextsAre(t, n - 1, words, scope);
    }
  }

  lemma {:induction false} JoinSnoc(parts: seq<Option<string>>, last: Option<string>)
    ensures Join(parts + [last]) ==
            if Join(parts).None? || last.None? then None else Some(Join(parts).value + last.value)
  {
    if parts == [] {
      assert parts + [last] == [last] && [last][1..] == [];
      assert last.Some? ==> last.value + "" == last.value && "" + last.value == last.value;
    } else {
      assert (parts + [last])[0] == parts[0] && (parts + [last])[1..] == parts[1..] + [last];
      JoinSnoc(parts[1..], last);
      if Join(parts).Some? && last.Some? {
        var a, b, c := parts[0].value, Join(parts[1..]).value, last.value;
        assert a + (b + c) == (a + b) + c;
      }
    }
  }

  lemma {:induction false} JoinIs(parts: seq<Option<string>>, words: seq<string>)
    requires |parts| == |words| && forall i :: 0 <= i < |parts| ==> parts[i] == Some(words[i])
    ensures Join(parts) == Some(Concatenated(words))
  {
    if parts != [] {
      var n := |parts| - 1;
      JoinIs(parts[..n], words[..n]);
      JoinSnoc(parts[..n], parts[n]);
      assert parts == parts[..n] + [parts[n]];
    }
  }

  /** A merge of known texts names their concatenation, in order. */
  lemma MergedText(t: Tree, words: seq<string>, scope: Scope)
    requires Tagged(t, "merge") && |t.children| == |words|
    requires forall i :: 0 <= i < |words| ==> StaticText(t.children[i], scope) == Ok(Some(words[i]))
    ensures StaticText(t, scope) == Ok(Some(Concatenated(words)))
  {
    TextsAre(t, |words|, words, scope);
    JoinIs(StaticTexts(t, |words|, scope).value, words);
    hide StaticTexts, Join, Concatenated;
  }

  lemma {:induction false} TextsFail(t: Tree, n: nat, scope: Scope)
    requires t.Tree? && n <= |t.children|
    ensures StaticTexts(t, n, scope).Err? <==> exists i :: 0 <= i < n && StaticText(t.children[i], scope).Err?
    decreases n
  {
    hide StaticText;
    if n > 0 {
      TextsFail(t, n - 1, scope);
    }
  }

  /** A merge with an unknown part has no name. */
  lemma {:induction false} UnknownPart(parts: seq<Option<string>>, i: nat)
    requires i < |parts| && parts[i].None?
    ensures Join(parts).None?
  {
    if i > 0 {
      UnknownPart(parts[1..], i - 1);
    }
  }

  /** A style wrapper with an odd number of children stands for its last child. */
  lemma Unwrapped(t: Tree)
    ensures UnwrapStyle(t) ==
            if Tagged(t, "style-with") && |t.children| % 2 == 1 then UnwrapStyle(t.children[|t.children| - 1]) else t
  {
  }

  /** Each parameter is bound to the argument in its place. */
  lemma {:induction false} BoundTo(params: seq<string>, bound: seq<Option<string>>, i: nat)
    requires |params| == |bound| && Distinct(params) && i < |params|
    ensures params[i] in Bind(params, bound) && Bind(params, bound)[params[i]] == bound[i]
    decreases |params|
  {
    var n := |params| - 1;
    if i < n {
      assert Distinct(params[..n]) by {
        forall j, k | 0 <= j < k < n ensures params[..n][j] != params[..n][k] {
          assert params[j] != params[k];
        }
      }
      BoundTo(params[..n], bound[..n], i);
      assert params[i] != params[n];
    }
  }

  // ----- what one assignment, or one call, contributes -----

  /** `x := macro`, where x is the static name. */
  ghost predicate Declares(t: Tree, scope: Scope, x: string) {
    && Assignment(t) && StaticText(t.children[0], scope) == Ok(Some(x))
    && (Tagged(UnwrapStyle(t.children[1]), "macro") || Tagged(UnwrapStyle(t.children[1]), "xmacro"))
  }

  /** `x := value y`. */
  ghost predicate Aliases(t: Tree, scope: Scope, x: string, y: string) {
    && Assignment(t) && StaticText(t.children[0], scope) == Ok(Some(x))
    && var value := UnwrapStyle(t.children[1]);
       Tagged(value, "value") && |value.children| == 1 && StaticText(value.children[0], scope) == Ok(Some(y))
  }

  /** A node named like a factory, with as many children as that has parameters. */
  ghost predicate Calls(factories: Factories, t: Tree, scope: Scope, c: Call) {
    && t.Tree? && t.tag == Some(c.name) && c.name in factories && c.index < |factories[c.name]|
    && !Assignment(t) && |factories[c.name][c.index].params| == |t.children|
    && StaticTexts(t, |t.children|, scope) == Ok(c.bound)
  }

  // The scan looks inside nodes that are no macros, quotations, assignments or calls.
  predicate Transparent(factories: Factories, t: Tree) {
    && t.Tree? && !Tagged(t, "macro") && !Tagged(t, "xmacro") && !Tagged(t, "quote") && !Assignment(t)
    && (t.tag.Some? ==> t.tag.value !in factories)
  }

  /** The scan of t comes to sub, and sub is not a macro or a quotation. */
  ghost predicate Visits(factories: Factories, t: Tree, sub: Tree) {
    || (t == sub && !Tagged(t, "macro") && !Tagged(t, "xmacro") && !Tagged(t, "quote"))
    || (Transparent(factories, t) && exists i :: 0 <= i < |t.children| && Visits(factories, t.children[i], sub))
  }

  // ----- what a scan finds is what there is to be found -----

  datatype Finding = Fault | Name(x: string) | Alias(x: string, y: string) | Invocation(call: Call)

  predicate Among(w: Finding, r: Result<Facts>) {
    match w
    case Fault => r.Err?
    case Name(x) => r.Ok? && x in r.value.names
    case Alias(x, y) => r.Ok? && (x, y) in r.value.aliases
    case Invocation(c) => r.Ok? && c in r.value.calls
  }

  // A macro with an unusable name, or a text that is needed and encoded.
  ghost predicate Faulty(factories: Factories, t: Tree, scope: Scope) {
    || (exists x :: Declares(t, scope, x) && (x == "" || '\0' in x))
    || (Assignment(t) && StaticText(t.children[0], scope).Err?)
    || (Assignment(t) && FaultyTarget(t, scope))
    || FaultyCall(factories, t, scope)
  }

  ghost predicate FaultyTarget(t: Tree, scope: Scope)
    requires Assignment(t)
  {
    var name, value := StaticText(t.children[0], scope), UnwrapStyle(t.children[1]);
    && name.Ok? && name.value.Some? && Tagged(value, "value") && |value.children| == 1
    && StaticText(value.children[0], scope).Err?
  }

  ghost predicate FaultyCall(factories: Factories, t: Tree, scope: Scope) {
    && t.Tree? && !Assignment(t) && t.tag.Some? && t.tag.value in factories
    && (exists k :: 0 <= k < |factories[t.tag.value]| && |factories[t.tag.value][k].params| == |t.children|)
    && exists i :: 0 <= i < |t.children| && StaticText(t.children[i], scope).Err?
  }

  // The node itself contributes it.
  ghost predicate Gives(factories: Factories, t: Tree, scope: Scope, w: Finding) {
    match w
    case Fault => Faulty(factories, t, scope)
    case Name(x) => Declares(t, scope, x)
    case Alias(x, y) => Aliases(t, scope, x, y)
    case Invocation(c) => Calls(factories, t, scope, c)
  }

  ghost predicate Yields(factories: Factories, t: Tree, scope: Scope, w: Finding) {
    exists sub :: Visits(factories, t, sub) && Gives(factories, sub, scope, w)
  }

  lemma AssignmentGives(factories: Factories, t: Tree, scope: Scope, w: Finding)
    requires Assignment(t) && (w.Fault? || AssignmentFacts(t, scope).Ok?)
    ensures Among(w, AssignmentFacts(t, scope)) <==> Gives(factories, t, scope, w)
  {
    hide StaticText, UnwrapStyle;
    var name := StaticText(t.children[0], scope);
    if w.Fault? && name.Ok? && name.value.Some? && MacroNode(UnwrapStyle(t.children[1])) {
      assert Declares(t, scope, name.value.value);
    }
  }

  lemma {:induction false} CallGives(factories: Factories, t: Tree, n: nat, scope: Scope, w: Finding)
    requires FactoryCall(factories, t) && !Assignment(t) && n <= |factories[t.tag.value]|
    requires !w.Fault? && CallFacts(factories, t, t.tag.value, n, scope).Ok?
    ensures Among(w, CallFacts(factories, t, t.tag.value, n, scope)) <==>
            Gives(factories, t, scope, w) && w.Invocation? && w.call.index < n
    decreases n
  {
    hide StaticText, StaticTexts;
    if n > 0 {
      CallGives(factories, t, n - 1, scope, w);
    }
  }

  lemma {:induction false} CallFails(factories: Factories, t: Tree, n: nat, scope: Scope)
    requires FactoryCall(factories, t) && n <= |factories[t.tag.value]|
    ensures CallFacts(factories, t, t.tag.value, n, scope).Err? <==>
      && (exists k :: 0 <= k < n && |factories[t.tag.value][k].params| == |t.children|)
      && StaticTexts(t, |t.children|, scope).Err?
    decreases n
  {
    hide StaticText, StaticTexts;
    if n > 0 {
      CallFails(factories, t, n - 1, scope);
    }
  }

  lemma CallFaulty(factories: Factories, t: Tree, scope: Scope)
    requires FactoryCall(factories, t) && !Assignment(t)
    ensures CallFacts(factories, t, t.tag.value, |factories[t.tag.value]|, scope).Err? <==> Faulty(factories, t, scope)
  {
    CallFails(factories, t, |factories[t.tag.value]|, scope);
    TextsFail(t, |t.children|, scope);
    hide CallFacts, StaticText, StaticTexts;
  }

  lemma OnlyItself(factories: Factories, t: Tree, scope: Scope, w: Finding)
    requires !Transparent(factories, t)
    ensures Yields(factories, t, scope, w) <==> !Opaque(t) && Gives(factories, t, scope, w)
  {
    hide Gives;
    if !Opaque(t) && Gives(factories, t, scope, w) {
      assert Visits(factories, t, t);
    }
  }

  lemma TransparentGives(factories: Factories, t: Tree, scope: Scope, w: Finding)
    ensures t.Leaf? || Transparent(factories, t) ==> !Gives(factories, t, scope, w)
  {
    hide StaticText, StaticTexts, UnwrapStyle;
  }

  lemma InsideOnly(factories: Factories, t: Tree, scope: Scope, w: Finding)
    requires Transparent(factories, t)
    ensures Yields(factories, t, scope, w) <==>
            exists i :: 0 <= i < |t.children| && Yields(factories, t.children[i], scope, w)
  {
    TransparentGives(factories, t, scope, w);
    hide Gives;
    if Yields(factories, t, scope, w) {
      var sub :| Visits(factories, t, sub) && Gives(factories, sub, scope, w);
      var i :| 0 <= i < |t.children| && Visits(factories, t.children[i], sub);
      assert Yields(factories, t.children[i], scope, w);
    }
    if i :| 0 <= i < |t.children| && Yields(factories, t.children[i], scope, w) {
      var sub :| Visits(factories, t.children[i], sub) && Gives(factories, sub, scope, w);
      assert Visits(factories, t, sub);
    }
  }

  /** A scan takes in exactly the declarations, aliases and calls of the nodes it visits, and fails
      exactly when one of them is at fault. */
  lemma {:induction false} ScanFinds(factories: Factories, t: Tree, scope: Scope, w: Finding)
    requires w.Fault? || Scan(factories, t, scope).Ok?
    ensures Among(w, Scan(factories, t, scope)) <==> Yields(factories, t, scope, w)
    decreases t, 1
  {
    if Transparent(factories, t) {
      InsideOnly(factories, t, scope, w);
      hide Yields, Among;
      ChildrenFind(factories, t, |t.children|, scope, w);
    } else {
      OnlyItself(factories, t, scope, w);
      hide Yields;
      if t.Leaf? || Opaque(t) {
        TransparentGives(factories, t, scope, w);
      } else if Assignment(t) {
        AssignmentGives(factories, t, scope, w);
        hide AssignmentFacts;
      } else if w.Fault? {
        CallFaulty(factories, t, scope);
        hide CallFacts, Faulty;
      } else {
        CallGives(factories, t, |factories[t.tag.value]|, scope, w);
        hide CallFacts;
      }
    }
  }

  lemma {:induction false} ChildrenFind(factories: Factories, t: Tree, n: nat, scope: Scope, w: Finding)
    requires t.Tree? && n <= |t.children| && (w.Fault? || ScanChildren(factories, t, n, scope).Ok?)
    ensures Among(w, ScanChildren(factories, t, n, scope)) <==>
            exists i :: 0 <= i < n && Yields(factories, t.children[i], scope, w)
    decreases t, 0, n
  {
    hide Yields;
    if n > 0 {
      ChildrenFind(factories, t, n - 1, scope, w);
      ScanFinds(factories, t.children[n - 1], scope, w);
      hide Scan;
    }
  }

  // ----- the literal pass -----

  /** sub is t or lies anywhere below it. */
  ghost predicate Inside(t: Tree, sub: Tree) {
    t == sub || (t.Tree? && exists i :: 0 <= i < |t.children| && Inside(t.children[i], sub))
  }

  lemma {:induction false} AssignmentsInside(t: Tree, sub: Tree)
    ensures sub in Assignments(t) <==> Assignment(sub) && Inside(t, sub)
    decreases t, 1
  {
    if t.Tree? {
      BelowInside(t, |t.children|, sub);
      hide Assignment;
    }
  }

  lemma {:induction false} BelowInside(t: Tree, n: nat, sub: Tree)
    requires t.Tree? && n <= |t.children|
    ensures sub in AssignmentsBelow(t, n) <==>
            Assignment(sub) && exists i :: 0 <= i < n && Inside(t.children[i], sub)
    decreases t, 0, n
  {
    hide Assignment, Inside;
    if n > 0 {
      BelowInside(t, n - 1, sub);
      AssignmentsInside(t.children[n - 1], sub);
    }
  }

  /** sub is a node of some document. */
  ghost predicate InDocuments(roots: seq<Tree>, sub: Tree) {
    exists k :: 0 <= k < |roots| && Inside(roots[k], sub)
  }

  lemma {:induction false} AllInside(roots: seq<Tree>, sub: Tree)
    ensures sub in AllAssignments(roots) <==> Assignment(sub) && InDocuments(roots, sub)
  {
    hide Assignment, Inside;
    if roots != [] {
      var n := |roots| - 1;
      AllInside(roots[..n], sub);
      AssignmentsInside(roots[n], sub);
      assert forall k :: 0 <= k < n ==> roots[..n][k] == roots[k];
    }
  }

  /** The macro assignment defines this factory: its parameters have distinct static names. */
  ghost predicate Defines(t: Tree, name: string, f: Factory) {
    && Assignment(t) && StaticText(t.children[0], map[]) == Ok(Some(name))
    && Fits(UnwrapStyle(t.children[1]), f)
  }

  ghost predicate Fits(value: Tree, f: Factory) {
    && Tagged(value, "macro") && |value.children| == |f.params| + 1 && Distinct(f.params)
    && f.body == value.children[|f.params|]
    && forall i :: 0 <= i < |f.params| ==> StaticText(value.children[i], map[]) == Ok(Some(f.params[i]))
  }

  // A named macro with a parameter whose text is encoded.
  ghost predicate FaultyFactory(t: Tree)
    requires Assignment(t)
  {
    var name, value := StaticText(t.children[0], map[]), UnwrapStyle(t.children[1]);
    && name.Ok? && name.value.Some? && Tagged(value, "macro")
    && exists i :: 0 <= i < |value.children| - 1 && StaticText(value.children[i], map[]).Err?
  }

  // An assignment the literal pass stops at.
  ghost predicate FaultyLiteral(t: Tree)
    requires Assignment(t)
  {
    Faulty(map[], t, map[]) || FaultyFactory(t)
  }

  lemma {:induction false} ValuesAt(xs: seq<Option<string>>, i: nat)
    requires AllKnown(xs) && i < |xs|
    ensures Values(xs)[i] == xs[i].value
    decreases |xs|
  {
    var n := |xs| - 1;
    if i < n {
      assert xs[..n][i] == xs[i];
      ValuesAt(xs[..n], i);
    }
  }

  lemma {:induction false} TextsOf(t: Tree, n: nat, scope: Scope, i: nat)
    requires t.Tree? && i < n <= |t.children| && StaticTexts(t, n, scope).Ok?
    ensures StaticText(t.children[i], scope) == Ok(StaticTexts(t, n, scope).value[i])
    decreases n
  {
    hide StaticText;
    if i < n - 1 {
      TextsOf(t, n - 1, scope, i);
    }
  }

  lemma FactoryFails(value: Tree)
    ensures FactoryOf(value).Err? <==>
      Tagged(value, "macro") && exists i :: 0 <= i < |value.children| - 1 && StaticText(value.children[i], map[]).Err?
  {
    if Tagged(value, "macro") && value.children != [] {
      TextsFail(value, |value.children| - 1, map[]);
    }
    hide StaticText, StaticTexts;
  }

  lemma FactoryDefined(value: Tree, f: Factory)
    requires FactoryOf(value).Ok?
    ensures FactoryOf(value).value == Some(f) <==> Fits(value, f)
  {
    if Tagged(value, "macro") && value.children != [] {
      var n := |value.children| - 1;
      var texts := StaticTexts(value, n, map[]).value;
      forall i | 0 <= i < n ensures StaticText(value.children[i], map[]) == Ok(texts[i]) {
        TextsOf(value, n, map[], i);
      }
      hide StaticText, StaticTexts, Values;
      if AllKnown(texts) {
        forall i | 0 <= i < n ensures Values(texts)[i] == texts[i].value {
          ValuesAt(texts, i);
        }
        DistinctAlike(texts, Values(texts));
        hide Distinct;
        if Fits(value, f) {
          assert f.params == Values(texts);
        }
      } else {
        hide Distinct;
      }
    }
  }

  lemma DistinctAlike(xs: seq<Option<string>>, ys: seq<string>)
    requires |xs| == |ys| && forall i :: 0 <= i < |xs| ==> xs[i] == Some(ys[i])
    ensures Distinct(xs) <==> Distinct(ys)
  {
    if Distinct(ys) {
      forall i, j | 0 <= i < j < |xs| ensures xs[i] != xs[j] {
        assert ys[i] != ys[j];
      }
    }
    if Distinct(xs) {
      forall i, j | 0 <= i < j < |ys| ensures ys[i] != ys[j] {
        assert xs[i] != xs[j];
      }
    }
  }

  lemma {:induction false} LiteralsFail(ts: seq<Tree>)
    requires AllAssign(ts)
    ensures Literals(ts).Err? <==> exists t :: t in ts && Assignment(t) && FaultyLiteral(t)
  {
    if ts != [] {
      var n := |ts| - 1;
      LiteralsFail(ts[..n]);
      AssignmentGives(map[], ts[n], map[], Fault);
      FactoryFails(UnwrapStyle(ts[n].children[1]));
      assert forall t :: t in ts <==> t in ts[..n] || t == ts[n];
      hide AssignmentFacts, FactoryOf, StaticText, UnwrapStyle, AddFactory, Faulty;
    }
  }

  // Names and aliases the literal pass takes in.
  lemma {:induction false} LiteralsGive(ts: seq<Tree>, w: Finding)
    requires AllAssign(ts) && Literals(ts).Ok? && (w.Name? || w.Alias?)
    ensures Among(w, Ok(Literals(ts).value.facts)) <==> exists t :: t in ts && Gives(map[], t, map[], w)
  {
    if ts != [] {
      var n := |ts| - 1;
      LiteralsGive(ts[..n], w);
      AssignmentGives(map[], ts[n], map[], w);
      hide AssignmentFacts, Gives, FactoryOf, StaticText, UnwrapStyle, AddFactory;
      assert forall t :: t in ts <==> t in ts[..n] || t == ts[n];
    }
  }

  ghost predicate Holds(factories: Factories, name: string, f: Factory) {
    name in factories && f in factories[name]
  }

  lemma AddedHolds(factories: Factories, x: string, g: Factory, name: string, f: Factory)
    ensures Holds(AddFactory(factories, x, g), name, f) <==> Holds(factories, name, f) || (name == x && f == g)
  {
  }

  lemma AddLiteralHolds(b: Base, t: Tree, name: string, f: Factory)
    requires Assignment(t) && AddLiteral(b, t).Ok?
    ensures Holds(AddLiteral(b, t).value.factories, name, f) <==> Holds(b.factories, name, f) || Defines(t, name, f)
  {
    var x, value := StaticText(t.children[0], map[]), UnwrapStyle(t.children[1]);
    hide StaticText, UnwrapStyle, FactoryOf, AddFactory, Fits, AssignmentFacts, Holds;
    if x.Ok? && x.value.Some? {
      FactoryDefined(value, f);
      if FactoryOf(value).value.Some? {
        AddedHolds(b.factories, x.value.value, FactoryOf(value).value.value, name, f);
      }
    }
  }

  /** The factories the literal pass collects are those the assignments define. */
  lemma {:induction false} LiteralsHold(ts: seq<Tree>, name: string, f: Factory)
    requires AllAssign(ts) && Literals(ts).Ok?
    ensures Holds(Literals(ts).value.factories, name, f) <==> exists t :: t in ts && Defines(t, name, f)
  {
    if ts != [] {
      var n := |ts| - 1;
      LiteralsHold(ts[..n], name, f);
      AddLiteralHolds(Literals(ts[..n]).value, ts[n], name, f);
      hide AddLiteral, Defines, Holds;
      assert forall t :: t in ts <==> t in ts[..n] || t == ts[n];
    }
  }

  // ----- what explains a set of names -----

  // Everything the nodes give, read in one scope, is in the sets.
  ghost predicate Takes(factories: Factories, t: Tree, scope: Scope, calls: set<Call>, names: set<string>) {
    && !Yields(factories, t, scope, Fault)
    && (forall x :: Yields(factories, t, scope, Name(x)) ==> x in names)
    && (forall x, y :: Yields(factories, t, scope, Alias(x, y)) && y in names ==> x in names)
    && (forall c :: Yields(factories, t, scope, Invocation(c)) ==> c in calls)
  }

  lemma ScanTakes(factories: Factories, t: Tree, scope: Scope, calls: set<Call>, names: set<string>)
    ensures Accounted(Scan(factories, t, scope), calls, names) <==> Takes(factories, t, scope, calls, names)
  {
    var r := Scan(factories, t, scope);
    ScanFinds(factories, t, scope, Fault);
    if r.Ok? {
      forall w: Finding ensures Among(w, r) <==> Yields(factories, t, scope, w) {
        ScanFinds(factories, t, scope, w);
      }
      hide Scan, Yields;
      AmongTakes(r.value, calls, names);
      assert forall x :: Among(Name(x), r) <==> Yields(factories, t, scope, Name(x));
      assert forall x, y :: Among(Alias(x, y), r) <==> Yields(factories, t, scope, Alias(x, y));
      assert forall c :: Among(Invocation(c), r) <==> Yields(factories, t, scope, Invocation(c));
      hide Among;
    }
  }

  lemma AmongTakes(f: Facts, calls: set<Call>, names: set<string>)
    ensures Respects(f, calls, names) <==>
      && (forall x :: Among(Name(x), Ok(f)) ==> x in names)
      && (forall x, y :: Among(Alias(x, y), Ok(f)) && y in names ==> x in names)
      && (forall c :: Among(Invocation(c), Ok(f)) ==> c in calls)
  {
    assert forall x :: x in f.names <==> Among(Name(x), Ok(f));
    assert forall c :: c in f.calls <==> Among(Invocation(c), Ok(f));
    assert forall x, y :: (x, y) in f.aliases <==> Among(Alias(x, y), Ok(f));
    assert forall a :: a in f.aliases <==> (a.0, a.1) in f.aliases;
    hide Among;
  }

  // The literal assignments, wherever they stand, are respected and none is at fault.
  ghost predicate TakesLiterals(roots: seq<Tree>, names: set<string>) {
    && (forall t :: InDocuments(roots, t) && Assignment(t) ==> !FaultyLiteral(t))
    && (forall t, x :: InDocuments(roots, t) && Declares(t, map[], x) ==> x in names)
    && (forall t, x, y :: InDocuments(roots, t) && Aliases(t, map[], x, y) && y in names ==> x in names)
  }

  /** The factories in the map are those the documents define. */
  ghost predicate Collected(roots: seq<Tree>, factories: Factories) {
    forall name, f :: Holds(factories, name, f) <==> exists t :: InDocuments(roots, t) && Defines(t, name, f)
  }

  // A call fits its factory.
  predicate Instantiates(factories: Factories, c: Call) {
    c.name in factories && c.index < |factories[c.name]| && |factories[c.name][c.index].params| == |c.bound|
  }

  /** The sets hold what is declared literally, in the documents, and in every body called for, its
      parameters bound to the arguments. */
  ghost predicate Declared(roots: seq<Tree>, factories: Factories, calls: set<Call>, names: set<string>) {
    && TakesLiterals(roots, names)
    && (forall k :: 0 <= k < |roots| ==> Takes(factories, roots[k], map[], calls, names))
    && (forall c :: c in calls ==> Instantiates(factories, c) && TakesBody(factories, c, calls, names))
    && (forall x :: x in names ==> x != "" && '\0' !in x)
  }

  ghost predicate TakesBody(factories: Factories, c: Call, calls: set<Call>, names: set<string>)
    requires Instantiates(factories, c)
  {
    var f := factories[c.name][c.index];
    Takes(factories, f.body, Bind(f.params, c.bound), calls, names)
  }

  // The factories of the documents, in the order of their definition.
  function FactoriesIn(roots: seq<Tree>): Factories {
    var ts := AllAssignments(roots);
    if AllAssign(ts) && Literals(ts).Ok? then Literals(ts).value.factories else map[]
  }

  lemma LiteralsFault(roots: seq<Tree>)
    ensures AllAssign(AllAssignments(roots))
    ensures Literals(AllAssignments(roots)).Ok? <==>
            forall t :: InDocuments(roots, t) && Assignment(t) ==> !FaultyLiteral(t)
  {
    var ts := AllAssignments(roots);
    AllAssignmentsAssign(roots);
    LiteralsFail(ts);
    hide Literals, FaultyLiteral, InDocuments, AllAssignments, Assignment;
    forall t ensures t in ts <==> Assignment(t) && InDocuments(roots, t) {
      AllInside(roots, t);
    }
  }

  lemma LiteralTaken(roots: seq<Tree>, w: Finding)
    requires AllAssign(AllAssignments(roots)) && Literals(AllAssignments(roots)).Ok? && (w.Name? || w.Alias?)
    ensures Among(w, Ok(Literals(AllAssignments(roots)).value.facts)) <==>
            exists t :: InDocuments(roots, t) && Gives(map[], t, map[], w)
  {
    var ts := AllAssignments(roots);
    LiteralsGive(ts, w);
    hide Literals, InDocuments, AllAssignments, StaticText, UnwrapStyle, Among, Assignment;
    forall t ensures t in ts <==> Assignment(t) && InDocuments(roots, t) {
      AllInside(roots, t);
    }
    assert forall t :: Gives(map[], t, map[], w) ==> Assignment(t);
    hide Gives;
  }

  lemma LiteralsTaken(roots: seq<Tree>, calls: set<Call>, names: set<string>)
    requires AllAssign(AllAssignments(roots)) && Literals(AllAssignments(roots)).Ok?
    ensures Respects(Literals(AllAssignments(roots)).value.facts, calls, names) <==> TakesLiterals(roots, names)
  {
    var f := Literals(AllAssignments(roots)).value.facts;
    LiteralsFault(roots);
    LiteralsGood(AllAssignments(roots));
    AmongTakes(f, calls, names);
    assert forall c :: !Among(Invocation(c), Ok(f));
    forall w: Finding | w.Name? || w.Alias?
      ensures Among(w, Ok(f)) <==> exists t :: InDocuments(roots, t) && Gives(map[], t, map[], w)
    {
      LiteralTaken(roots, w);
    }
    assert forall t, x :: Gives(map[], t, map[], Name(x)) <==> Declares(t, map[], x);
    assert forall t, x, y :: Gives(map[], t, map[], Alias(x, y)) <==> Aliases(t, map[], x, y);
    hide Among, Gives, Declares, Aliases, InDocuments, Literals, FaultyLiteral, Respects;
  }

  /** What the catalog explains is what the trees declare. */
  lemma ExplainsExactly(roots: seq<Tree>, calls: set<Call>, names: set<string>)
    ensures Explains(roots, calls, names) <==> Declared(roots, FactoriesIn(roots), calls, names)
  {
    var ts, factories := AllAssignments(roots), FactoriesIn(roots);
    LiteralsFault(roots);
    if Literals(ts).Ok? {
      LiteralsTaken(roots, calls, names);
      forall t: Tree, scope: Scope
        ensures Accounted(Scan(factories, t, scope), calls, names) <==> Takes(factories, t, scope, calls, names)
      {
        ScanTakes(factories, t, scope, calls, names);
      }
      hide Literals, Takes, Scan, Accounted, Respects, TakesLiterals, AllAssignments;
    }
  }

  /** The factories are those the documents define. */
  lemma FactoriesCollected(roots: seq<Tree>)
    requires forall t :: InDocuments(roots, t) && Assignment(t) ==> !FaultyLiteral(t)
    ensures Collected(roots, FactoriesIn(roots))
  {
    var ts := AllAssignments(roots);
    LiteralsFault(roots);
    hide Literals, Holds, Fits, StaticText, UnwrapStyle, InDocuments, AllAssignments;
    forall name, f
      ensures Holds(FactoriesIn(roots), name, f) <==> exists t :: InDocuments(roots, t) && Defines(t, name, f)
    {
      LiteralsHold(ts, name, f);
      forall t ensures t in ts <==> Assignment(t) && InDocuments(roots, t) {
        AllInside(roots, t);
      }
    }
  }

  // ----- the three ways into the catalog -----

  function Text(text: string): Tree { Leaf(text, false) }

  /** `x := macro …` anywhere in the documents names x. */
  lemma MacroNamed(roots: seq<Tree>, calls: set<Call>, names: set<string>, x: string, rest: seq<Tree>)
    requires Explains(roots, calls, names)
    ensures InDocuments(roots, Node("assign", [Text(x), Node("macro", rest)])) ==> x in names
    ensures InDocuments(roots, Node("assign", [Text(x), Node("xmacro", rest)])) ==> x in names
  {
    ExplainsExactly(roots, calls, names);
    var t, u := Node("assign", [Text(x), Node("macro", rest)]), Node("assign", [Text(x), Node("xmacro", rest)]);
    hide Explains, Takes, TakesBody, InDocuments, FaultyLiteral;
    assert Declares(t, map[], x) && Declares(u, map[], x);
  }

  /** `x := value y` names x when y is named. */
  lemma AliasNamed(roots: seq<Tree>, calls: set<Call>, names: set<string>, x: string, y: string)
    requires Explains(roots, calls, names)
    requires InDocuments(roots, Node("assign", [Text(x), Node("value", [Text(y)])])) && y in names
    ensures x in names
  {
    ExplainsExactly(roots, calls, names);
    var t := Node("assign", [Text(x), Node("value", [Text(y)])]);
    hide Explains, Takes, TakesBody, InDocuments, FaultyLiteral;
    assert Aliases(t, map[], x, y);
  }

  // The i-th parameter is made a macro in the body.
  ghost predicate Makes(factories: Factories, f: Factory, i: nat, rest: seq<Tree>) {
    && i < |f.params| && Distinct(f.params)
    && Visits(factories, f.body, Node("assign", [Node("arg", [Text(f.params[i])]), Node("macro", rest)]))
  }

  lemma BodyNames(factories: Factories, c: Call, i: nat, rest: seq<Tree>, calls: set<Call>, names: set<string>)
    requires Instantiates(factories, c) && TakesBody(factories, c, calls, names)
    requires Makes(factories, factories[c.name][c.index], i, rest) && c.bound[i].Some?
    ensures c.bound[i].value in names
  {
    var f := factories[c.name][c.index];
    var scope := Bind(f.params, c.bound);
    var sub := Node("assign", [Node("arg", [Text(f.params[i])]), Node("macro", rest)]);
    BoundTo(f.params, c.bound, i);
    ArgumentText(Text(f.params[i]), scope);
    assert Declares(sub, scope, c.bound[i].value);
    assert Gives(factories, sub, scope, Name(c.bound[i].value));
    assert Yields(factories, f.body, scope, Name(c.bound[i].value));
  }

  lemma CallTaken(roots: seq<Tree>, calls: set<Call>, names: set<string>, k: nat, t: Tree, c: Call)
    requires Explains(roots, calls, names) && k < |roots|
    requires Visits(FactoriesIn(roots), roots[k], t) && Calls(FactoriesIn(roots), t, map[], c)
    ensures c in calls && Instantiates(FactoriesIn(roots), c) && TakesBody(FactoriesIn(roots), c, calls, names)
  {
    var factories := FactoriesIn(roots);
    ExplainsExactly(roots, calls, names);
    hide Explains, TakesLiterals, FactoriesIn, TakesBody, Visits, Calls;
    assert Gives(factories, t, map[], Invocation(c));
    assert Yields(factories, roots[k], map[], Invocation(c));
    assert Takes(factories, roots[k], map[], calls, names);
  }

  /** A call, with literal arguments, of a factory whose body makes its i-th parameter a macro names
      the i-th argument. */
  lemma InstanceNamed(roots: seq<Tree>, calls: set<Call>, names: set<string>, k: nat, t: Tree, words: seq<string>,
                      c: Call, i: nat, rest: seq<Tree>)
    requires Explains(roots, calls, names) && k < |roots|
    requires Visits(FactoriesIn(roots), roots[k], t) && Calls(FactoriesIn(roots), t, map[], c)
    requires Makes(FactoriesIn(roots), FactoriesIn(roots)[c.name][c.index], i, rest)
    requires |words| == |t.children| && forall j :: 0 <= j < |words| ==> t.children[j] == Text(words[j])
    ensures words[i] in names
  {
    CallTaken(roots, calls, names, k, t, c);
    TextsAre(t, |words|, words, map[]);
    hide Explains, FactoriesIn, TakesBody, StaticTexts, Visits;
    BodyNames(FactoriesIn(roots), c, i, rest, calls, names);
  }
}
