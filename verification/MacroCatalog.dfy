/** generate-shipped-macro-labels.py: the names a set of style documents can declare, found by a
    worklist over calls of declaration factories and a closure under aliases. */
module MacroCatalog {
  import opened Common

  // A DeclarationError is an `Err`.
  datatype Result<T> = Ok(value: T) | Err

  /** An element of a document: a childless text element, or any other with its `tag` attribute,
      `None` when it is not a node element. */
  datatype Tree =
    | Leaf(text: string, encoded: bool)
    | Tree(tag: Option<string>, children: seq<Tree>)

  predicate Tagged(t: Tree, tag: string) { t.Tree? && t.tag == Some(tag) }

  type Scope = map<string, Option<string>>

  // ----- static names -----

  function UnwrapStyle(t: Tree): Tree {
    if Tagged(t, "style-with") && |t.children| % 2 == 1 then UnwrapStyle(t.children[|t.children| - 1]) else t
  }

  function StaticText(t: Tree, scope: Scope): Result<Option<string>>
    decreases t, 1
  {
    match t
    case Leaf(text, encoded) => if encoded then Err else Ok(Some(text))
    case Tree(_, children) =>
      if Tagged(t, "arg") && |children| == 1 then
        match StaticText(children[0], map[])
        case Err => Err
        case Ok(name) => Ok(if name.Some? && name.value in scope then scope[name.value] else None)
      else if Tagged(t, "unquote") && |children| == 1 then StaticText(children[0], scope)
      else if Tagged(t, "merge") then
        match StaticTexts(t, |children|, scope)
        case Err => Err
        case Ok(parts) => Ok(Join(parts))
      else Ok(None)
  }

  // The static texts of the first n children.
  function StaticTexts(t: Tree, n: nat, scope: Scope): (r: Result<seq<Option<string>>>)
    requires t.Tree? && n <= |t.children|
    ensures r.Ok? ==> |r.value| == n
    decreases t, 0, n
  {
    if n == 0 then Ok([])
    else match StaticTexts(t, n - 1, scope)
      case Err => Err
      case Ok(before) =>
        match StaticText(t.children[n - 1], scope)
        case Err => Err
        case Ok(last) => Ok(before + [last])
  }

  // The concatenation, if every part is known.
  function Join(parts: seq<Option<string>>): Option<string> {
    if parts == [] then Some("")
    else match Join(parts[1..])
      case None => None
      case Some(rest) => if parts[0].None? then None else Some(parts[0].value + rest)
  }

  predicate ValidName(name: string) { name != "" && '\0' !in name }

  // ----- what a tree contributes -----

  datatype Factory = Factory(params: seq<string>, body: Tree)

  type Factories = map<string, seq<Factory>>

  /** One instantiation: which factory, with which arguments. */
  datatype Call = Call(name: string, index: nat, bound: seq<Option<string>>)

  datatype Facts = Facts(names: set<string>, aliases: set<(string, string)>, calls: set<Call>)

  const Nothing: Facts := Facts({}, {}, {})

  function Both(a: Facts, b: Facts): Facts { Facts(a.names + b.names, a.aliases + b.aliases, a.calls + b.calls) }

  function Plus(a: Result<Facts>, b: Result<Facts>): Result<Facts> {
    if a.Err? || b.Err? then Err else Ok(Both(a.value, b.value))
  }

  predicate MacroNode(t: Tree) { Tagged(t, "macro") || Tagged(t, "xmacro") }

  predicate Assignment(t: Tree) { Tagged(t, "assign") && |t.children| == 2 }

  // A declaration, or an alias, made by an assignment whose name is known.
  function AssignmentFacts(t: Tree, scope: Scope): Result<Facts>
    requires Assignment(t)
  {
    var value := UnwrapStyle(t.children[1]);
    match StaticText(t.children[0], scope)
    case Err => Err
    case Ok(None) => Ok(Nothing)
    case Ok(Some(name)) =>
      if MacroNode(value) then if ValidName(name) then Ok(Facts({name}, {}, {})) else Err
      else if Tagged(value, "value") && |value.children| == 1 then
        match StaticText(value.children[0], scope)
        case Err => Err
        case Ok(None) => Ok(Nothing)
        case Ok(Some(target)) => Ok(Facts({}, {(name, target)}, {}))
      else Ok(Nothing)
  }

  // The calls a node makes to the first n factories of its name.
  function CallFacts(factories: Factories, t: Tree, name: string, n: nat, scope: Scope): Result<Facts>
    requires t.Tree? && name in factories && n <= |factories[name]|
  {
    if n == 0 then Ok(Nothing)
    else
      var before := CallFacts(factories, t, name, n - 1, scope);
      if |factories[name][n - 1].params| != |t.children| then before
      else match StaticTexts(t, |t.children|, scope)
        case Err => Err
        case Ok(bound) => Plus(before, Ok(Facts({}, {}, {Call(name, n - 1, bound)})))
  }

  predicate Opaque(t: Tree) { MacroNode(t) || Tagged(t, "quote") }

  predicate FactoryCall(factories: Factories, t: Tree) { t.Tree? && t.tag.Some? && t.tag.value in factories }

  /** What scanning a tree finds. */
  function Scan(factories: Factories, t: Tree, scope: Scope): Result<Facts>
    decreases t, 1
  {
    if t.Leaf? || Opaque(t) then Ok(Nothing)
    else if Assignment(t) then AssignmentFacts(t, scope)
    else if FactoryCall(factories, t) then CallFacts(factories, t, t.tag.value, |factories[t.tag.value]|, scope)
    else ScanChildren(factories, t, |t.children|, scope)
  }

  function ScanChildren(factories: Factories, t: Tree, n: nat, scope: Scope): Result<Facts>
    requires t.Tree? && n <= |t.children|
    decreases t, 0, n
  {
    if n == 0 then Ok(Nothing)
    else Plus(ScanChildren(factories, t, n - 1, scope), Scan(factories, t.children[n - 1], scope))
  }

  // dict(zip(params, bound))
  function Bind(params: seq<string>, bound: seq<Option<string>>): Scope
    requires |params| == |bound|
  {
    if params == [] then map[]
    else Bind(params[..|params| - 1], bound[..|bound| - 1])[params[|params| - 1] := bound[|bound| - 1]]
  }

  predicate CallOk(factories: Factories, c: Call) {
    c.name in factories && c.index < |factories[c.name]| && |factories[c.name][c.index].params| == |c.bound|
  }

  function ScanCall(factories: Factories, c: Call): Result<Facts> {
    if !CallOk(factories, c) then Err
    else
      var f := factories[c.name][c.index];
      Scan(factories, f.body, Bind(f.params, c.bound))
  }

  // ----- the literal pass -----

  // Every assignment of a tree, in document order.
  function Assignments(t: Tree): seq<Tree>
    decreases t, 1
  {
    if t.Leaf? then []
    else (if Assignment(t) then [t] else []) + AssignmentsBelow(t, |t.children|)
  }

  function AssignmentsBelow(t: Tree, n: nat): seq<Tree>
    requires t.Tree? && n <= |t.children|
    decreases t, 0, n
  {
    if n == 0 then [] else AssignmentsBelow(t, n - 1) + Assignments(t.children[n - 1])
  }

  function AllAssignments(roots: seq<Tree>): seq<Tree> {
    if roots == [] then [] else AllAssignments(roots[..|roots| - 1]) + Assignments(roots[|roots| - 1])
  }

  datatype Base = Base(facts: Facts, factories: Factories, unresolved: nat)

  predicate AllKnown(xs: seq<Option<string>>) { forall k :: 0 <= k < |xs| ==> xs[k].Some? }

  predicate Distinct<T(==)>(xs: seq<T>) { forall i, j :: 0 <= i < j < |xs| ==> xs[i] != xs[j] }

  function Values(xs: seq<Option<string>>): (r: seq<string>)
    requires AllKnown(xs)
    ensures |r| == |xs|
  {
    if xs == [] then [] else Values(xs[..|xs| - 1]) + [xs[|xs| - 1].value]
  }

  // The factory a literal macro declaration defines, if its parameters are known and distinct.
  function FactoryOf(value: Tree): Result<Option<Factory>> {
    if !Tagged(value, "macro") || value.children == [] then Ok(None)
    else match StaticTexts(value, |value.children| - 1, map[])
      case Err => Err
      case Ok(params) =>
        if AllKnown(params) && Distinct(params)
        then Ok(Some(Factory(Values(params), value.children[|value.children| - 1]))) else Ok(None)
  }

  function AddFactory(factories: Factories, name: string, f: Factory): Factories {
    factories[name := (if name in factories then factories[name] else []) + [f]]
  }

  function AddLiteral(b: Base, t: Tree): Result<Base>
    requires Assignment(t)
  {
    match AssignmentFacts(t, map[])
    case Err => Err
    case Ok(facts) =>
      var value := UnwrapStyle(t.children[1]);
      var b1 := b.(facts := Both(b.facts, facts));
      match StaticText(t.children[0], map[])
      case Err => Err
      case Ok(None) => Ok(if MacroNode(value) then b1.(unresolved := b.unresolved + 1) else b1)
      case Ok(Some(name)) =>
        match FactoryOf(value)
        case Err => Err
        case Ok(None) => Ok(b1)
        case Ok(Some(f)) => Ok(b1.(factories := AddFactory(b.factories, name, f)))
  }

  // A macro assigned to a name that is not static.
  predicate Unnamed(t: Tree)
    requires Assignment(t)
  {
    MacroNode(UnwrapStyle(t.children[1])) && StaticText(t.children[0], map[]) == Ok(None)
  }

  // How many of the assignments are such.
  function CountUnnamed(ts: seq<Tree>): nat
    requires AllAssign(ts)
  {
    if ts == [] then 0
    else CountUnnamed(ts[..|ts| - 1]) + if Unnamed(ts[|ts| - 1]) then 1 else 0
  }

  lemma {:induction false} UnresolvedCounts(ts: seq<Tree>)
    requires AllAssign(ts)
    ensures Literals(ts).Ok? ==> Literals(ts).value.unresolved == CountUnnamed(ts)
  {
    if ts != [] {
      UnresolvedCounts(ts[..|ts| - 1]);
      hide ValidName, StaticText, UnwrapStyle, FactoryOf, AddFactory;
    }
  }

  predicate AllAssign(ts: seq<Tree>) { forall k :: 0 <= k < |ts| ==> Assignment(ts[k]) }

  function Literals(ts: seq<Tree>): Result<Base>
    requires AllAssign(ts)
  {
    if ts == [] then Ok(Base(Nothing, map[], 0))
    else match Literals(ts[..|ts| - 1])
      case Err => Err
      case Ok(b) => AddLiteral(b, ts[|ts| - 1])
  }

  lemma {:induction false} AssignmentsAssign(t: Tree)
    ensures AllAssign(Assignments(t))
    decreases t, 1
  {
    if t.Tree? {
      AssignmentsBelowAssign(t, |t.children|);
    }
  }

  lemma {:induction false} AssignmentsBelowAssign(t: Tree, n: nat)
    requires t.Tree? && n <= |t.children|
    ensures AllAssign(AssignmentsBelow(t, n))
    decreases t, 0, n
  {
    if n != 0 {
      AssignmentsBelowAssign(t, n - 1);
      AssignmentsAssign(t.children[n - 1]);
    }
  }

  lemma {:induction false} AllAssignmentsAssign(roots: seq<Tree>)
    ensures AllAssign(AllAssignments(roots))
  {
    if roots != [] {
      AllAssignmentsAssign(roots[..|roots| - 1]);
      AssignmentsAssign(roots[|roots| - 1]);
    }
  }

  // ----- what is to be computed -----

  predicate AliasClosed(aliases: set<(string, string)>, names: set<string>) {
    forall a :: a in aliases && a.1 in names ==> a.0 in names
  }

  predicate Respects(f: Facts, calls: set<Call>, names: set<string>) {
    f.names <= names && f.calls <= calls && AliasClosed(f.aliases, names)
  }

  predicate Accounted(r: Result<Facts>, calls: set<Call>, names: set<string>) {
    r.Ok? && Respects(r.value, calls, names)
  }

  /** A set of calls and a set of names that hold everything the documents declare, literally or
      through any call in the set, with no error on the way. */
  predicate Solution(base: Base, roots: seq<Tree>, calls: set<Call>, names: set<string>) {
    && Respects(base.facts, calls, names)
    && (forall k :: 0 <= k < |roots| ==> Accounted(Scan(base.factories, roots[k], map[]), calls, names))
    && (forall c :: c in calls ==> Accounted(ScanCall(base.factories, c), calls, names))
    && (forall n :: n in names ==> ValidName(n))
  }

  const Limit: nat := 10000

  // ----- the worklist -----

  function Elems<T>(q: seq<T>): set<T> { set k | 0 <= k < |q| :: q[k] }

  datatype State = State(names: set<string>, aliases: set<(string, string)>, visited: set<Call>, queue: seq<Call>)

  // The state after taking in what a scan found: new calls are queued.
  predicate Took(s: State, s': State, f: Facts) {
    && s'.names == s.names + f.names && s'.aliases == s.aliases + f.aliases && s'.visited == s.visited + f.calls
    && Elems(s'.queue) == Elems(s.queue) + (f.calls - s.visited)
    && (s'.visited == s.visited ==> s'.queue == s.queue)
  }

  lemma ElemsSnoc<T>(q: seq<T>, x: T)
    ensures Elems(q + [x]) == Elems(q) + {x}
  {
    var r := q + [x];
    forall y | y in Elems(q) + {x} ensures y in Elems(r) {
      if y == x {
        assert r[|q|] == y;
      } else {
        var k :| 0 <= k < |q| && q[k] == y;
        assert r[k] == y;
      }
    }
  }

  /** Why a scan may stop: what it scanned is in error, or its calls do not fit the limit. */
  predicate Stuck(s: State, r: Result<Facts>) {
    r.Err? || |s.visited + r.value.calls| > Limit
  }

  predicate Outcome(s: State, s': State, ok: bool, r: Result<Facts>) {
    if ok then r.Ok? && Took(s, s', r.value) && |s'.visited| <= Limit else Stuck(s, r)
  }

  // A part of a scan is in error, or makes calls, only if the whole is or does.
  predicate PartOf(part: Result<Facts>, whole: Result<Facts>) {
    whole.Ok? ==> part.Ok? && part.value.calls <= whole.value.calls
  }

  lemma OutcomeNothing(s: State)
    requires |s.visited| <= Limit
    ensures Outcome(s, s, true, Ok(Nothing))
  {
  }

  lemma OutcomeDeclared(s: State, s': State, f: Facts)
    requires |s.visited| <= Limit && f.calls == {} && s'.visited == s.visited && s'.queue == s.queue
    requires s'.names == s.names + f.names && s'.aliases == s.aliases + f.aliases
    ensures Outcome(s, s', true, Ok(f))
  {
  }

  lemma OutcomeErr(s: State, s': State)
    ensures Outcome(s, s', false, Err)
  {
  }

  // Queueing what the first scan found, then what the second found beyond it.
  lemma QueuedBoth<T>(q: set<T>, v: set<T>, f: set<T>, g: set<T>)
    ensures (q + (f - v)) + (g - (v + f)) == q + ((f + g) - v) && v + f + g == v + (f + g)
  {
  }

  lemma TookBoth(s: State, s1: State, s2: State, f: Facts, g: Facts)
    requires Took(s, s1, f) && Took(s1, s2, g)
    ensures Took(s, s2, Both(f, g))
  {
    QueuedBoth(Elems(s.queue), s.visited, f.calls, g.calls);
    hide Elems;
    assert s.names + f.names + g.names == s.names + (f.names + g.names);
    assert s.aliases + f.aliases + g.aliases == s.aliases + (f.aliases + g.aliases);
    if s2.visited == s.visited {
      assert s1.visited == s.visited;
    }
  }

  lemma OutcomeBoth(s: State, s1: State, s2: State, ok: bool, f: Result<Facts>, g: Result<Facts>)
    requires Outcome(s, s1, true, f) && Outcome(s1, s2, ok, g)
    ensures Outcome(s, s2, ok, Plus(f, g))
  {
    if ok {
      TookBoth(s, s1, s2, f.value, g.value);
      hide Took;
    } else if g.Ok? {
      QueuedBoth({}, s.visited, f.value.calls, g.value.calls);
      hide Elems;
    }
  }

  lemma OutcomeWhole(s: State, s': State, part: Result<Facts>, whole: Result<Facts>)
    requires Outcome(s, s', false, part) && PartOf(part, whole)
    ensures Outcome(s, s', false, whole)
  {
    if whole.Ok? {
      SubsetSize(s.visited + part.value.calls, s.visited + whole.value.calls);
    }
  }

  class Discovery {
    var names: set<string>
    var aliases: set<(string, string)>
    var visited: set<Call>
    var queue: seq<Call>
    const factories: Factories

    function View(): State
      reads this
    {
      State(names, aliases, visited, queue)
    }

    constructor (base: Base)
      ensures View() == State(base.facts.names, base.facts.aliases, {}, []) && factories == base.factories
    {
      names, aliases, visited, queue := base.facts.names, base.facts.aliases, {}, [];
      factories := base.factories;
    }

    method Declare(t: Tree, scope: Scope) returns (ok: bool)
      requires Assignment(t) && |visited| <= Limit
      modifies this`names, this`aliases
      ensures Outcome(old(View()), View(), ok, AssignmentFacts(t, scope))
    {
      hide UnwrapStyle, StaticText, ValidName, Outcome;
      ghost var before := View();
      OutcomeNothing(before);
      OutcomeErr(before, before);
      var value := UnwrapStyle(t.children[1]);
      var name := StaticText(t.children[0], scope);
      if name.Err? {
        return false;
      }
      if name.value.Some? {
        var n := name.value.value;
        if MacroNode(value) {
          if !ValidName(n) {
            return false;
          }
          names := names + {n};
          OutcomeDeclared(before, View(), Facts({n}, {}, {}));
        } else if Tagged(value, "value") && |value.children| == 1 {
          var target := StaticText(value.children[0], scope);
          if target.Err? {
            return false;
          }
          if target.value.Some? {
            aliases := aliases + {(n, target.value.value)};
            OutcomeDeclared(before, View(), Facts({}, {(n, target.value.value)}, {}));
          }
        }
      }
      return true;
    }

    method Enqueue(c: Call) returns (ok: bool)
      requires |visited| <= Limit
      modifies this`visited, this`queue
      ensures Outcome(old(View()), View(), ok, Ok(Facts({}, {}, {c})))
    {
      if c !in visited {
        if |visited| >= Limit {
          return false;
        }
        visited := visited + {c};
        ElemsSnoc(queue, c);
        queue := queue + [c];
      }
      return true;
    }

    method CallFactories(t: Tree, name: string, scope: Scope) returns (ok: bool)
      requires t.Tree? && name in factories && |visited| <= Limit
      modifies this`visited, this`queue
      ensures Outcome(old(View()), View(), ok, CallFacts(factories, t, name, |factories[name]|, scope))
    {
      hide Outcome, StaticTexts, PartOf, Plus;
      OutcomeNothing(View());
      var fs := factories[name];
      for i := 0 to |fs|
        invariant Outcome(old(View()), View(), true, CallFacts(factories, t, name, i, scope))
      {
        if |fs[i].params| != |t.children| {
          continue;
        }
        ghost var before := View();
        var bound := StaticTexts(t, |t.children|, scope);
        if bound.Err? {
          OutcomeErr(old(View()), View());
          CallsGrow(factories, t, name, i + 1, scope);
          OutcomeWhole(old(View()), View(), Err, CallFacts(factories, t, name, |fs|, scope));
          return false;
        }
        OutcomeRoom(old(View()), View(), CallFacts(factories, t, name, i, scope));
        var c := Call(name, i, bound.value);
        ok := Enqueue(c);
        OutcomeBoth(old(View()), before, View(), ok, CallFacts(factories, t, name, i, scope), Ok(Facts({}, {}, {c})));
        if !ok {
          CallsGrow(factories, t, name, i + 1, scope);
          OutcomeWhole(old(View()), View(), CallFacts(factories, t, name, i + 1, scope), CallFacts(factories, t,
              name, |fs|, scope));
          return;
        }
      }
      return true;
    }

    method ScanTree(t: Tree, scope: Scope) returns (ok: bool)
      requires |visited| <= Limit
      modifies this
      ensures Outcome(old(View()), View(), ok, Scan(factories, t, scope))
      decreases t, 1
    {
      hide Outcome, AssignmentFacts, CallFacts, ScanChildren;
      OutcomeNothing(View());
      if t.Leaf? || Opaque(t) {
        return true;
      }
      if Assignment(t) {
        ok := Declare(t, scope);
        return;
      }
      if FactoryCall(factories, t) {
        ok := CallFactories(t, t.tag.value, scope);
        return;
      }
      ok := ScanBelow(t, scope);
    }

    method ScanBelow(t: Tree, scope: Scope) returns (ok: bool)
      requires t.Tree? && |visited| <= Limit
      modifies this
      ensures Outcome(old(View()), View(), ok, ScanChildren(factories, t, |t.children|, scope))
      decreases t, 0
    {
      hide Outcome, PartOf, Scan, Plus;
      OutcomeNothing(View());
      for i := 0 to |t.children|
        invariant Outcome(old(View()), View(), true, ScanChildren(factories, t, i, scope))
      {
        ghost var before := View();
        OutcomeRoom(old(View()), View(), ScanChildren(factories, t, i, scope));
        ok := ScanTree(t.children[i], scope);
        OutcomeBoth(old(View()), before, View(), ok, ScanChildren(factories, t, i, scope), Scan(factories,
            t.children[i], scope));
        if !ok {
          ScanGrows(factories, t, i + 1, scope);
          OutcomeWhole(old(View()), View(), ScanChildren(factories, t, i + 1, scope), ScanChildren(factories, t,
              |t.children|, scope));
          return;
        }
      }
      return true;
    }
  }

  lemma OutcomeRoom(s: State, s': State, r: Result<Facts>)
    requires Outcome(s, s', true, r)
    ensures |s'.visited| <= Limit
  {
  }

  lemma PartTransitive(a: Result<Facts>, b: Result<Facts>, c: Result<Facts>)
    requires PartOf(a, b) && PartOf(b, c)
    ensures PartOf(a, c)
  {
  }

  lemma {:induction false} ScanGrows(factories: Factories, t: Tree, i: nat, scope: Scope)
    requires t.Tree? && i <= |t.children|
    ensures PartOf(ScanChildren(factories, t, i, scope), ScanChildren(factories, t, |t.children|, scope))
    decreases |t.children| - i
  {
    if i < |t.children| {
      ScanGrows(factories, t, i + 1, scope);
      hide Scan;
      PartTransitive(ScanChildren(factories, t, i, scope), ScanChildren(factories, t, i + 1, scope),
                     ScanChildren(factories, t, |t.children|, scope));
    }
  }

  lemma {:induction false} CallsGrow(factories: Factories, t: Tree, name: string, i: nat, scope: Scope)
    requires t.Tree? && name in factories && i <= |factories[name]|
    ensures PartOf(CallFacts(factories, t, name, i, scope), CallFacts(factories, t, name, |factories[name]|, scope))
    decreases |factories[name]| - i
  {
    if i < |factories[name]| {
      CallsGrow(factories, t, name, i + 1, scope);
      hide StaticTexts;
      PartTransitive(CallFacts(factories, t, name, i, scope), CallFacts(factories, t, name, i + 1, scope),
                     CallFacts(factories, t, name, |factories[name]|, scope));
    }
  }

  // ----- what every scan yields -----

  predicate Good(factories: Factories, f: Facts) {
    (forall c :: c in f.calls ==> CallOk(factories, c)) && (forall n :: n in f.names ==> ValidName(n))
  }

  lemma AssignmentGood(factories: Factories, t: Tree, scope: Scope)
    requires Assignment(t)
    ensures AssignmentFacts(t, scope).Ok? ==> Good(factories, AssignmentFacts(t, scope).value)
  {
    hide UnwrapStyle, StaticText, ValidName;
  }

  lemma {:induction false} CallsGood(factories: Factories, t: Tree, name: string, n: nat, scope: Scope)
    requires t.Tree? && name in factories && n <= |factories[name]|
    ensures var r := CallFacts(factories, t, name, n, scope); r.Ok? ==> Good(factories, r.value)
  {
    if n != 0 {
      CallsGood(factories, t, name, n - 1, scope);
    }
  }

  lemma {:induction false} ScanGood(factories: Factories, t: Tree, scope: Scope)
    ensures Scan(factories, t, scope).Ok? ==> Good(factories, Scan(factories, t, scope).value)
    decreases t, 1
  {
    if t.Leaf? || Opaque(t) {
    } else if Assignment(t) {
      AssignmentGood(factories, t, scope);
    } else if FactoryCall(factories, t) {
      CallsGood(factories, t, t.tag.value, |factories[t.tag.value]|, scope);
    } else {
      ChildrenGood(factories, t, |t.children|, scope);
    }
    hide AssignmentFacts, CallFacts, ScanChildren, CallOk, ValidName;
  }

  lemma {:induction false} ChildrenGood(factories: Factories, t: Tree, n: nat, scope: Scope)
    requires t.Tree? && n <= |t.children|
    ensures ScanChildren(factories, t, n, scope).Ok? ==> Good(factories, ScanChildren(factories, t, n, scope).value)
    decreases t, 0, n
  {
    if n != 0 {
      ChildrenGood(factories, t, n - 1, scope);
      ScanGood(factories, t.children[n - 1], scope);
      hide Scan, CallOk, ValidName;
    }
  }

  lemma {:induction false} LiteralsGood(ts: seq<Tree>)
    requires AllAssign(ts)
    ensures Literals(ts).Ok? ==>
      Literals(ts).value.facts.calls == {} && forall n :: n in Literals(ts).value.facts.names ==> ValidName(n)
  {
    if ts != [] {
      LiteralsGood(ts[..|ts| - 1]);
      AssignmentGood(map[], ts[|ts| - 1], map[]);
      hide ValidName, StaticText, UnwrapStyle, FactoryOf, AddFactory;
    }
  }

  // ----- the invariant of the worklist -----

  /** Where a scanned tree comes from. */
  datatype Origin = Root(index: nat) | Instance(call: Call)

  function Found(base: Base, roots: seq<Tree>, o: Origin): Result<Facts> {
    match o
    case Root(k) => if k < |roots| then Scan(base.factories, roots[k], map[]) else Err
    case Instance(c) => ScanCall(base.factories, c)
  }

  predicate Known(roots: seq<Tree>, s: State, o: Origin) {
    match o
    case Root(k) => k < |roots|
    case Instance(c) => c in s.visited
  }

  predicate Within(s: State, calls: set<Call>, names: set<string>) {
    s.visited <= calls && s.names <= names && AliasClosed(s.aliases, names)
  }

  // Nothing has been taken in that some solution does without.
  ghost predicate Under(base: Base, roots: seq<Tree>, s: State) {
    forall calls, names :: Solution(base, roots, calls, names) ==> Within(s, calls, names)
  }

  ghost predicate NoSolution(base: Base, roots: seq<Tree>) {
    forall calls, names :: Solution(base, roots, calls, names) ==> |calls| > Limit
  }

  lemma FoundAccounted(base: Base, roots: seq<Tree>, s: State, o: Origin, calls: set<Call>, names: set<string>)
    requires Solution(base, roots, calls, names) && Within(s, calls, names) && Known(roots, s, o)
    ensures Accounted(Found(base, roots, o), calls, names)
  {
    hide Accounted, Scan, ScanCall;
  }

  lemma UnderStep(base: Base, roots: seq<Tree>, s: State, s': State, o: Origin)
    requires Under(base, roots, s) && Known(roots, s, o)
    requires Outcome(s, s', true, Found(base, roots, o))
    ensures Under(base, roots, s')
  {
    hide Solution, Found, Known, Elems;
    forall calls, names | Solution(base, roots, calls, names) ensures Within(s', calls, names) {
      FoundAccounted(base, roots, s, o, calls, names);
    }
  }

  lemma UnderStuck(base: Base, roots: seq<Tree>, s: State, s': State, o: Origin)
    requires Under(base, roots, s) && Known(roots, s, o)
    requires Outcome(s, s', false, Found(base, roots, o))
    ensures NoSolution(base, roots)
  {
    hide Solution, Found, Known;
    forall calls, names | Solution(base, roots, calls, names) ensures |calls| > Limit {
      FoundAccounted(base, roots, s, o, calls, names);
      SubsetSize(s.visited + Found(base, roots, o).value.calls, calls);
    }
  }

  predicate Taken(r: Result<Facts>, s: State) {
    r.Ok? && r.value.names <= s.names && r.value.aliases <= s.aliases && r.value.calls <= s.visited
  }

  // Everything but the queue, the call being scanned and the roots still to come has been taken in.
  predicate Over(base: Base, roots: seq<Tree>, done: nat, busy: set<Call>, s: State) {
    && Taken(Ok(base.facts), s)
    && (forall k :: 0 <= k < done <= |roots| ==> Taken(Found(base, roots, Root(k)), s))
    && (forall c :: c in s.visited && c !in Elems(s.queue) && c !in busy ==> Taken(Found(base, roots, Instance(c)), s))
    && Elems(s.queue) <= s.visited
    && Good(base.factories, Facts(s.names, {}, s.visited))
    && |s.visited| <= Limit
  }

  lemma TakenLater(r: Result<Facts>, s: State, s': State)
    requires Taken(r, s) && s.names <= s'.names && s.aliases <= s'.aliases && s.visited <= s'.visited
    ensures Taken(r, s')
  {
  }

  lemma TookTaken(s: State, s': State, r: Result<Facts>)
    requires Outcome(s, s', true, r)
    ensures Taken(r, s') && s.names <= s'.names && s.aliases <= s'.aliases && s.visited <= s'.visited
    ensures Elems(s.queue) <= Elems(s'.queue)
    ensures forall c :: c in s'.visited && c !in Elems(s'.queue) ==> c in s.visited && c !in Elems(s.queue)
  {
    hide Elems;
  }

  lemma TookGood(base: Base, roots: seq<Tree>, s: State, s': State, o: Origin)
    requires Good(base.factories, Facts(s.names, {}, s.visited)) && Elems(s.queue) <= s.visited
    requires Outcome(s, s', true, Found(base, roots, o))
    ensures Good(base.factories, Facts(s'.names, {}, s'.visited))
    ensures Elems(s'.queue) <= s'.visited && |s'.visited| <= Limit
  {
    match o {
      case Root(k) => ScanGood(base.factories, roots[k], map[]);
      case Instance(c) =>
        var f := base.factories[c.name][c.index];
        ScanGood(base.factories, f.body, Bind(f.params, c.bound));
    }
    hide Elems, Scan, CallOk, ValidName;
  }

  // Taking in a tree keeps everything taken before.
  lemma OverStep(base: Base, roots: seq<Tree>, done: nat, busy: set<Call>, s: State, s': State, o: Origin)
    requires Over(base, roots, done, busy, s) && Outcome(s, s', true, Found(base, roots, o))
    ensures Over(base, roots, done, busy, s') && Taken(Found(base, roots, o), s')
  {
    TookTaken(s, s', Found(base, roots, o));
    TookGood(base, roots, s, s', o);
    hide Outcome, Found, Good, Elems, Taken;
    TakenLater(Ok(base.facts), s, s');
    forall k | 0 <= k < done <= |roots| ensures Taken(Found(base, roots, Root(k)), s') {
      TakenLater(Found(base, roots, Root(k)), s, s');
    }
    forall c | c in s'.visited && c !in Elems(s'.queue) && c !in busy
      ensures Taken(Found(base, roots, Instance(c)), s')
    {
      TakenLater(Found(base, roots, Instance(c)), s, s');
    }
  }

  lemma OverRoot(base: Base, roots: seq<Tree>, done: nat, s: State, s': State)
    requires done < |roots| && Over(base, roots, done, {}, s) && Outcome(s, s', true, Found(base, roots, Root(done)))
    ensures Over(base, roots, done + 1, {}, s')
  {
    OverStep(base, roots, done, {}, s, s', Root(done));
    hide Outcome, Found, Good, Elems, Taken;
  }

  function Popped(s: State): State
    requires s.queue != []
  {
    s.(queue := s.queue[..|s.queue| - 1])
  }

  lemma OverPopped(base: Base, roots: seq<Tree>, s: State)
    requires Over(base, roots, |roots|, {}, s) && s.queue != []
    ensures var c := s.queue[|s.queue| - 1];
      Over(base, roots, |roots|, {c}, Popped(s)) && c in s.visited && CallOk(base.factories, c)
  {
    var c := s.queue[|s.queue| - 1];
    var init := s.queue[..|s.queue| - 1];
    assert s.queue == init + [c];
    ElemsSnoc(init, c);
    hide Found, Elems, CallOk, ValidName;
    assert c in s.visited;
    forall k | 0 <= k < |roots| ensures Taken(Found(base, roots, Root(k)), Popped(s)) {
      TakenLater(Found(base, roots, Root(k)), s, Popped(s));
    }
  }

  lemma OverCall(base: Base, roots: seq<Tree>, s: State, s': State, c: Call)
    requires Over(base, roots, |roots|, {c}, s) && Outcome(s, s', true, Found(base, roots, Instance(c)))
    ensures Over(base, roots, |roots|, {}, s')
  {
    OverStep(base, roots, |roots|, {c}, s, s', Instance(c));
    hide Outcome, Found, Good, Elems, Taken;
  }

  lemma Begun(base: Base, roots: seq<Tree>)
    requires base.facts.calls == {} && forall n :: n in base.facts.names ==> ValidName(n)
    ensures var s := State(base.facts.names, base.facts.aliases, {}, []);
      Over(base, roots, 0, {}, s) && Under(base, roots, s)
  {
    hide ValidName, Found, ScanCall, Scan;
  }

  // ----- the alias closure -----

  // What the loop knows: everything found is within every solution, and within reach.
  ghost predicate Settled(base: Base, roots: seq<Tree>, s: State, names: set<string>) {
    && s.names <= names && (forall n :: n in names ==> ValidName(n))
    && forall calls, all :: Solution(base, roots, calls, all) ==>
         names <= all && AliasClosed(s.aliases, all) && s.visited <= calls
  }

  // One step from the known names along an alias.
  function Additions(aliases: set<(string, string)>, names: set<string>): set<string> {
    (set a | a in aliases && a.1 in names :: a.0) - names
  }

  lemma SettledStep(base: Base, roots: seq<Tree>, s: State, names: set<string>)
    requires Settled(base, roots, s, names)
    ensures forall calls, all :: Solution(base, roots, calls, all) ==> Additions(s.aliases, names) <= all
    ensures (forall n :: n in Additions(s.aliases, names) ==> ValidName(n)) ==>
      Settled(base, roots, s, names + Additions(s.aliases, names))
  {
    hide Solution, ValidName;
  }

  lemma SettledInvalid(base: Base, roots: seq<Tree>, s: State, names: set<string>, n: string)
    requires Settled(base, roots, s, names) && n in Additions(s.aliases, names) && !ValidName(n)
    ensures NoSolution(base, roots)
  {
    SettledStep(base, roots, s, names);
    hide ValidName, Additions, Settled, Accounted;
  }

  // At the end the visited calls and the closed names are a solution.
  lemma Finished(base: Base, roots: seq<Tree>, s: State, names: set<string>)
    requires Over(base, roots, |roots|, {}, s) && s.queue == []
    requires Settled(base, roots, s, names) && Additions(s.aliases, names) == {}
    ensures Solution(base, roots, s.visited, names)
  {
    assert AliasClosed(s.aliases, names) by {
      forall a | a in s.aliases && a.1 in names ensures a.0 in names {
        assert a.0 !in names ==> a.0 in Additions(s.aliases, names);
      }
    }
    assert Elems(s.queue) == {};
    hide Settled, Additions, ValidName, Elems, Good;
    assert Respects(base.facts, s.visited, names);
    forall k | 0 <= k < |roots| ensures Accounted(Scan(base.factories, roots[k], map[]), s.visited, names) {
      assert Taken(Found(base, roots, Root(k)), s);
    }
    forall c | c in s.visited ensures Accounted(ScanCall(base.factories, c), s.visited, names) {
      assert Taken(Found(base, roots, Instance(c)), s);
    }
  }

  // ----- discover -----

  /** A solution for the documents: the literal pass succeeds and its base has one. */
  ghost predicate Explains(roots: seq<Tree>, calls: set<Call>, names: set<string>) {
    var ts := AllAssignments(roots);
    AllAssign(ts) && Literals(ts).Ok? && Solution(Literals(ts).value, roots, calls, names)
  }

  method LiteralPass(ts: seq<Tree>) returns (r: Result<Base>)
    requires AllAssign(ts)
    ensures r == Literals(ts)
  {
    hide AddLiteral;
    r := Ok(Base(Nothing, map[], 0));
    for i := 0 to |ts|
      invariant r == Literals(ts[..i]) && r.Ok?
    {
      assert ts[..i + 1][..i] == ts[..i];
      r := AddLiteral(r.value, ts[i]);
      if r.Err? {
        LiteralsErr(ts, i + 1);
        return;
      }
    }
    assert ts[..|ts|] == ts;
  }

  lemma {:induction false} LiteralsErr(ts: seq<Tree>, i: nat)
    requires AllAssign(ts) && i <= |ts| && Literals(ts[..i]).Err?
    ensures Literals(ts).Err?
    decreases |ts| - i
  {
    if i == |ts| {
      assert ts[..i] == ts;
    } else {
      assert ts[..i + 1][..i] == ts[..i];
      hide AddLiteral;
      LiteralsErr(ts, i + 1);
    }
  }

  // The worklist: the roots, then the queue from its end.
  method Saturate(base: Base, roots: seq<Tree>) returns (ok: bool, d: Discovery)
    requires base.facts.calls == {} && forall n :: n in base.facts.names ==> ValidName(n)
    ensures fresh(d)
    ensures ok ==> Over(base, roots, |roots|, {}, d.View()) && Under(base, roots, d.View()) && d.queue == []
    ensures !ok ==> NoSolution(base, roots)
  {
    hide Over, Under, NoSolution, Outcome, ValidName, Scan;
    d := new Discovery(base);
    Begun(base, roots);
    for i := 0 to |roots|
      invariant fresh(d) && d.factories == base.factories
      invariant Over(base, roots, i, {}, d.View()) && Under(base, roots, d.View())
    {
      ghost var before := d.View();
      OverRoom(base, roots, i, {}, before);
      ok := d.ScanTree(roots[i], map[]);
      if !ok {
        UnderStuck(base, roots, before, d.View(), Root(i));
        return;
      }
      UnderStep(base, roots, before, d.View(), Root(i));
      OverRoot(base, roots, i, before, d.View());
    }
    while d.queue != []
      invariant fresh(d) && d.factories == base.factories
      invariant Over(base, roots, |roots|, {}, d.View()) && Under(base, roots, d.View())
      decreases Limit - |d.visited|, |d.queue|
    {
      ghost var last := d.View();
      OverPopped(base, roots, last);
      var c := d.queue[|d.queue| - 1];
      d.queue := d.queue[..|d.queue| - 1];
      ghost var before := d.View();
      UnderPopped(base, roots, last);
      OverRoom(base, roots, |roots|, {c}, before);
      var f := d.factories[c.name][c.index];
      ok := d.ScanTree(f.body, Bind(f.params, c.bound));
      if !ok {
        UnderStuck(base, roots, before, d.View(), Instance(c));
        return;
      }
      UnderStep(base, roots, before, d.View(), Instance(c));
      OverCall(base, roots, before, d.View(), c);
      Smaller(before, d.View(), Found(base, roots, Instance(c)));
    }
    ok := true;
  }

  lemma OverRoom(base: Base, roots: seq<Tree>, done: nat, busy: set<Call>, s: State)
    requires Over(base, roots, done, busy, s)
    ensures |s.visited| <= Limit
  {
  }

  lemma UnderPopped(base: Base, roots: seq<Tree>, s: State)
    requires Under(base, roots, s) && s.queue != []
    ensures Under(base, roots, Popped(s))
  {
    hide Solution;
  }

  // A scan either visits new calls or leaves the queue alone.
  lemma Smaller(s: State, s': State, r: Result<Facts>)
    requires Outcome(s, s', true, r)
    ensures |s'.visited| <= Limit && (|s'.visited| > |s.visited| || s'.queue == s.queue)
    ensures |s'.visited| >= |s.visited|
  {
    SubsetSize(s.visited, s'.visited);
    if s'.visited != s.visited {
      var c :| c in s'.visited && c !in s.visited;
      SubsetSize(s.visited + {c}, s'.visited);
    }
  }

  // The closure under aliases.
  method CloseAliases(base: Base, roots: seq<Tree>, s: State) returns (r: Result<set<string>>)
    requires Settled(base, roots, s, s.names)
    ensures r.Ok? ==> Settled(base, roots, s, r.value) && Additions(s.aliases, r.value) == {}
    ensures r.Err? ==> NoSolution(base, roots)
  {
    hide Settled, NoSolution, ValidName;
    var names := s.names;
    ghost var all := set a | a in s.aliases :: a.0;
    while true
      invariant Settled(base, roots, s, names)
      decreases |all - names|
    {
      var additions := Additions(s.aliases, names);
      if additions == {} {
        return Ok(names);
      }
      SettledStep(base, roots, s, names);
      if n :| n in additions && !ValidName(n) {
        SettledInvalid(base, roots, s, names, n);
        return Err;
      }
      assert additions <= all - names;
      Shrinks(all - names, additions);
      assert all - (names + additions) == (all - names) - additions;
      names := names + additions;
    }
  }

  lemma Shrinks<T>(a: set<T>, b: set<T>)
    requires b <= a && b != {}
    ensures |a - b| < |a|
  {
    var x :| x in b;
    SubsetSize(a - b, a - {x});
  }

  lemma BeginSettled(base: Base, roots: seq<Tree>, s: State)
    requires Over(base, roots, |roots|, {}, s) && Under(base, roots, s)
    ensures Settled(base, roots, s, s.names)
  {
    hide Solution, ValidName, Taken, Found, Elems;
  }

  /** The worklist succeeds exactly when the documents have a solution within the limit, and then
      returns the least one: a set of names that some solution has and every solution contains.
      So the order in which the queue is emptied does not matter. With it comes the number of macros
      assigned to names that are not static. */
  method Discover(roots: seq<Tree>) returns (r: Result<(set<string>, nat)>)
    ensures r.Ok? <==> exists calls, names :: Explains(roots, calls, names) && |calls| <= 10000
    ensures r.Ok? ==> exists calls :: Explains(roots, calls, r.value.0) && |calls| <= 10000
    ensures r.Ok? ==> forall calls, names :: Explains(roots, calls, names) ==> r.value.0 <= names
    ensures r.Ok? ==> AllAssign(AllAssignments(roots)) && r.value.1 == CountUnnamed(AllAssignments(roots))
  {
    hide Over, Under, Settled, Solution, Additions, Literals, AllAssign, CountUnnamed;
    var ts := AllAssignments(roots);
    AllAssignmentsAssign(roots);
    var base := LiteralPass(ts);
    if base.Err? {
      return Err;
    }
    LiteralsGood(ts);
    UnresolvedCounts(ts);
    var ok, d := Saturate(base.value, roots);
    if !ok {
      return Err;
    }
    ghost var s := d.View();
    BeginSettled(base.value, roots, s);
    var closed := CloseAliases(base.value, roots, d.View());
    if closed.Err? {
      return Err;
    }
    Finished(base.value, roots, s, closed.value);
    OverRoom(base.value, roots, |roots|, {}, s);
    assert Explains(roots, s.visited, closed.value);
    SettledLeast(base.value, roots, s, closed.value);
    r := Ok((closed.value, base.value.unresolved));
  }

  lemma SettledLeast(base: Base, roots: seq<Tree>, s: State, names: set<string>)
    requires Settled(base, roots, s, names)
    ensures forall calls, all :: Solution(base, roots, calls, all) ==> names <= all
  {
    hide Solution;
  }
}
