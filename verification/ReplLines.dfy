/** repl_session.cpp read from the outside: what a typed line makes the session send, and which
    handle it sends it to. */
module ReplLines {
  import opened Common
  import opened ReplSession

  // ----- the text of a line -----

  predicate Blank(s: string) { forall i :: 0 <= i < |s| ==> Space(s[i]) }

  // No white space at either end.
  predicate Bare(s: string) { s == [] || (!Space(s[0]) && !Space(s[|s| - 1])) }

  lemma SpaceIs(c: char)
    ensures Space(c) <==> c in [' ', '\t', '\r', '\n']
  {
  }

  lemma {:induction false} TrimLeftBlank(a: string, s: string)
    requires Blank(a) && (s == [] || !Space(s[0]))
    ensures TrimLeft(a + s) == s
  {
    if a == [] {
      assert a + s == s;
    } else {
      assert (a + s)[1..] == a[1..] + s;
      TrimLeftBlank(a[1..], s);
    }
  }

  lemma {:induction false} TrimRightBlank(s: string, b: string)
    requires Blank(b) && (s == [] || !Space(s[|s| - 1]))
    ensures TrimRight(s + b) == s
  {
    if b == [] {
      assert s + b == s;
    } else {
      var n := |b| - 1;
      assert (s + b)[..|s + b| - 1] == s + b[..n];
      TrimRightBlank(s, b[..n]);
    }
  }

  /** Trimming takes off the white space around a text, */
  lemma TrimOff(a: string, text: string, b: string)
    requires Blank(a) && Blank(b) && Bare(text)
    ensures Trim(a + text + b) == text
  {
    if text == [] {
      assert a + text + b == (a + b) + [];
      TrimLeftBlank(a + b, []);
    } else {
      assert a + text + b == a + (text + b);
      TrimLeftBlank(a, text + b);
      TrimRightBlank(text, b);
    }
  }

  lemma {:induction false} LeftPad(s: string) returns (a: string)
    ensures Blank(a) && s == a + TrimLeft(s) && (TrimLeft(s) == [] || !Space(TrimLeft(s)[0]))
  {
    a := [];
    if s != [] && Space(s[0]) {
      var rest := LeftPad(s[1..]);
      a := [s[0]] + rest;
    }
  }

  lemma {:induction false} RightPad(s: string) returns (b: string)
    ensures Blank(b) && s == TrimRight(s) + b && (TrimRight(s) == [] || !Space(TrimRight(s)[|TrimRight(s)| - 1]))
  {
    b := [];
    if s != [] && Space(s[|s| - 1]) {
      var rest := RightPad(s[..|s| - 1]);
      b := rest + [s[|s| - 1]];
    }
  }

  /** and nothing else. */
  lemma TrimKeeps(s: string) returns (a: string, b: string)
    ensures Blank(a) && Blank(b) && Bare(Trim(s)) && s == a + Trim(s) + b
  {
    a := LeftPad(s);
    b := RightPad(TrimLeft(s));
    if Trim(s) != [] {
      assert TrimLeft(s)[0] == Trim(s)[0];
    }
  }

  lemma TrimBare(s: string)
    ensures Bare(Trim(s))
  {
    var _, _ := TrimKeeps(s);
  }

  predicate Word(s: string) { s != [] && !Space(s[0]) && forall i :: 0 <= i < |s| ==> s[i] != ' ' && s[i] != '\t' }

  /** A command, and what follows it after white space that begins with a blank or a tab. */
  predicate TypedAs(input: string, a: string, command: string, gap: string, rest: string, b: string) {
    && input == a + (command + gap + rest) + b && Blank(a) && Blank(gap) && Blank(b) && Word(command) && Bare(rest)
    && if rest == [] then gap == [] && Bare(command) else gap != [] && (gap[0] == ' ' || gap[0] == '\t')
  }

  ghost predicate Typed(input: string, command: string, rest: string) {
    exists a, gap, b :: TypedAs(input, a, command, gap, rest, b)
  }

  lemma {:induction false} WordEnds(word: string, more: string)
    requires forall i :: 0 <= i < |word| ==> word[i] != ' ' && word[i] != '\t'
    requires more == [] || more[0] == ' ' || more[0] == '\t'
    ensures WordLength(word + more) == |word|
  {
    if word == [] {
      assert word + more == more;
    } else {
      assert (word + more)[1..] == word[1..] + more;
      WordEnds(word[1..], more);
    }
  }

  lemma TypedParts(input: string, a: string, command: string, gap: string, rest: string, b: string)
    requires TypedAs(input, a, command, gap, rest, b)
    ensures var t := Trim(input);
      t == command + gap + rest && WordLength(t) == |command| && t[..|command|] == command
      && Trim(t[|command|..]) == rest
  {
    var t := command + gap + rest;
    hide Trim, WordLength, Space;
    TrimOff(a, t, b);
    assert t == command + (gap + rest);
    WordEnds(command, gap + rest);
    assert t[..|command|] == command && t[|command|..] == gap + rest + [];
    TrimOff(gap, rest, []);
  }

  lemma {:induction false} WordIs(s: string)
    ensures forall i :: 0 <= i < WordLength(s) ==> s[i] != ' ' && s[i] != '\t'
    ensures WordLength(s) < |s| ==> s[WordLength(s)] == ' ' || s[WordLength(s)] == '\t'
  {
    if s != [] {
      WordIs(s[1..]);
    }
  }

  lemma BlankTail(x: string, y: string)
    requires Blank(y)
    ensures y == [] || !Bare(x + y)
  {
    assert y != [] ==> (x + y)[|x + y| - 1] == y[|y| - 1];
  }

  // The space between the command and what follows it.
  lemma GapOf(t: string, n: nat) returns (gap: string)
    requires n <= |t| && Bare(t)
    ensures t == t[..n] + gap + Trim(t[n..]) && Blank(gap) && (Trim(t[n..]) == [] ==> gap == [])
    ensures gap != [] ==> n < |t| && gap[0] == t[n]
  {
    var end;
    gap, end := TrimKeeps(t[n..]);
    var rest := Trim(t[n..]);
    hide Trim, Space;
    assert t == (t[..n] + gap + rest) + end;
    BlankTail(t[..n] + gap + rest, end);
    BlankTail(t[..n], gap);
  }

  /** Every line that is not blank is typed in exactly one way. */
  lemma LineTyped(input: string)
    requires Trim(input) != []
    ensures var t := Trim(input); Typed(input, t[..WordLength(t)], Trim(t[WordLength(t)..]))
  {
    var t := Trim(input);
    var n := WordLength(t);
    WordIs(t);
    var a, b := TrimKeeps(input);
    assert n > 0;
    var gap := GapOf(t, n);
    TrimBare(t[n..]);
    var rest := Trim(t[n..]);
    hide Trim, WordLength, Space;
    assert TypedAs(input, a, t[..n], gap, rest, b);
  }

  lemma TypedExactly(input: string, command: string, rest: string)
    ensures var t := Trim(input);
      Typed(input, command, rest) <==>
      t != [] && command == t[..WordLength(t)] && rest == Trim(t[WordLength(t)..])
  {
    if Typed(input, command, rest) {
      var a, gap, b :| TypedAs(input, a, command, gap, rest, b);
      TypedParts(input, a, command, gap, rest, b);
    } else if Trim(input) != [] {
      LineTyped(input);
    }
  }

  // ----- numbers -----

  predicate Figure(c: char) { '0' <= c <= '9' }

  function FigureValue(c: char): nat
    requires Figure(c)
  {
    (c as int) - ('0' as int)
  }

  predicate Figures(s: string) { forall i :: 0 <= i < |s| ==> Figure(s[i]) }

  predicate Numeral(s: string) { s != [] && Figures(s) }

  function Value(s: string): nat
    requires Figures(s)
  {
    if s == [] then 0 else 10 * Value(s[..|s| - 1]) + FigureValue(s[|s| - 1])
  }

  const WIDE: nat := 0x1_0000_0000_0000_0000

  lemma {:induction false} HandleParsed(s: string, h: nat)
    ensures ParseHandle(s) == Some(h) <==> Numeral(s) && Value(s) == h < WIDE
  {
    if s != [] {
      var init := s[..|s| - 1];
      if Numeral(s) {
        assert init != [] ==> Numeral(init);
      }
      if ParseHandle(init).Some? {
        HandleParsed(init, ParseHandle(init).value);
        if '0' <= s[|s| - 1] <= '9' {
          assert Numeral(s);
        }
      } else if init != [] && Numeral(init) {
        HandleParsed(init, Value(init));
      }
    }
  }

  function DigitOf(d: nat): (c: char)
    requires d < 10
    ensures Figure(c) && FigureValue(c) == d
  {
    '0' + (d as char)
  }

  /** The decimal digits of a number. */
  function Digits(h: nat): string {
    (if h < 10 then [] else Digits(h / 10)) + [DigitOf(h % 10)]
  }

  lemma ValueSnoc(s: string, c: char)
    requires Figures(s) && Figure(c)
    ensures Numeral(s + [c]) && Value(s + [c]) == 10 * Value(s) + FigureValue(c)
  {
    hide Figure, FigureValue;
    assert (s + [c])[..|s|] == s;
  }

  lemma {:induction false} DigitsValue(h: nat)
    ensures Numeral(Digits(h)) && Value(Digits(h)) == h
  {
    hide Value;
    if h < 10 {
      NoDigits();
      ValueSnoc([], DigitOf(h));
    } else {
      DigitsValue(h / 10);
      ValueSnoc(Digits(h / 10), DigitOf(h % 10));
    }
  }

  lemma NoDigits()
    ensures Value([]) == 0
  {
  }

  // ----- what a line does -----

  // Operation mode, with nothing pending.
  predicate Ready(s: State) { s.ticket != 0 && !Busy(s) && !s.finished }

  // One of the words that take no arguments and send nothing to a handle.
  predicate Reserved(command: string, rest: string) {
    command == "use" || (rest == [] && (command == "exit" || command == "help" || command == "handles"))
  }

  lemma TextIs(input: string, command: string, rest: string, word: string)
    requires Typed(input, command, rest) && Word(word) && Bare(word)
    ensures Trim(input) == word <==> command == word && rest == []
  {
    var a, gap, b :| TypedAs(input, a, command, gap, rest, b);
    TypedParts(input, a, command, gap, rest, b);
    hide Trim, WordLength;
    if Trim(input) == word {
      assert word == word + [];
      WordEnds(word, []);
      assert command == word;
      assert word[|word|..] == [];
      assert gap + rest == [];
    }
    if command == word && rest == [] {
      assert command + gap + rest == word;
    }
  }

  lemma CommandLine(p: Parsers, s: State, input: string, command: string, rest: string)
    requires Ready(s) && Typed(input, command, rest)
    ensures LineStep(p, s, input) ==
      if command == "exit" && rest == [] then Leave(s)
      else if rest == [] && (command == "help" || command == "handles") then s
      else if command == "use" then UseStep(s, rest)
      else OperateStep(p, s, command, rest)
  {
    TypedExactly(input, command, rest);
    TextIs(input, command, rest, "exit");
    TextIs(input, command, rest, "help");
    TextIs(input, command, rest, "handles");
    hide Trim, WordLength, Typed, UseStep, OperateStep, Leave;
  }

  /** `use` makes the handle it names the target, and does nothing when it names none. */
  lemma UseSelects(p: Parsers, s: State, input: string, rest: string)
    requires Ready(s) && Typed(input, "use", rest)
    ensures LineStep(p, s, input) ==
      if Numeral(rest) && Value(rest) < WIDE && Value(rest) in s.handles then s.(selected := Value(rest)) else s
  {
    CommandLine(p, s, input, "use", rest);
    hide LineStep, Typed, ParseHandle, Value;
    if Numeral(rest) {
      HandleParsed(rest, Value(rest));
    }
    if ParseHandle(rest).Some? {
      HandleParsed(rest, ParseHandle(rest).value);
    }
  }

  lemma UseTyped(h: nat)
    ensures Typed("use " + Digits(h), "use", Digits(h))
  {
    DigitsValue(h);
    hide Digits;
    var d := Digits(h);
    assert "use " + d == [] + ("use" + " " + d) + [];
    assert TypedAs("use " + d, [], "use", " ", d, []);
  }

  lemma UseDigits(p: Parsers, s: State, h: nat)
    requires Ready(s) && h < 0x1_0000_0000_0000_0000
    ensures LineStep(p, s, "use " + Digits(h)) == if h in s.handles then s.(selected := h) else s
  {
    DigitsValue(h);
    UseTyped(h);
    UseSelects(p, s, "use " + Digits(h), Digits(h));
  }

  // What the arguments of a command must be.
  predicate Arguments(p: Parsers, command: string, rest: string) {
    rest == [] || (command != "lineage" && p.isObject(rest))
  }

  /** Any other command is sent to the target, with the line's first word and what follows it; one
      with the wrong arguments is not, but takes an operation number all the same. */
  lemma CommandSent(p: Parsers, s: State, input: string, command: string, rest: string)
    requires Ready(s) && Typed(input, command, rest) && !Reserved(command, rest)
    ensures var id := s.nextOperation + 1;
      LineStep(p, s, input) ==
      if !Arguments(p, command, rest) then s.(nextOperation := id)
      else
        var f := if command == "lineage" then Lin(s.ticket, id, s.selected)
                 else Opr(s.ticket, id, s.selected, command, rest);
        s.(nextOperation := id, operation := id, log := s.log + [Sent(f), Noticed(Running)])
  {
    CommandLine(p, s, input, command, rest);
    hide LineStep, Typed;
    forall f: Frame ensures (s.log + [Sent(f)]) + [Noticed(Running)] == s.log + [Sent(f), Noticed(Running)] {
    }
  }

  /** Without a ticket the line, trimmed, is a selector. */
  lemma SelectorSent(p: Parsers, s: State, a: string, text: string, b: string)
    requires s.ticket == 0 && !Busy(s) && !s.finished
    requires Blank(a) && Blank(b) && Bare(text) && text != [] && text != "exit" && text != "help"
    ensures var id := s.nextTicket + 1;
      LineStep(p, s, a + text + b) ==
      if !p.isSelection(text) then s
      else s.(nextTicket := id, ticket := id, resolving := true,
              log := s.log + [Sent(Req(id, text)), Noticed(Resolving)])
  {
    TrimOff(a, text, b);
    hide Trim;
    var f := Sent(Req(s.nextTicket + 1, text));
    assert (s.log + [f]) + [Noticed(Resolving)] == s.log + [f, Noticed(Resolving)];
  }

  /** While the session waits, no line but `exit` does anything; nor do blank lines, or any line
      once it is over. */
  lemma LineIgnored(p: Parsers, s: State, input: string)
    requires s.finished || Blank(input) || (Busy(s) && !Typed(input, "exit", []))
    ensures LineStep(p, s, input) == s
  {
    if Blank(input) {
      assert input == input + [] + [];
      TrimOff(input, [], []);
    } else if Trim(input) == "exit" {
      TypedExit(input);
    }
    hide Trim, RequestStep, CommandStep, Leave;
  }

  lemma TypedExit(input: string)
    requires Trim(input) == "exit"
    ensures Typed(input, "exit", [])
  {
    var a, b := TrimKeeps(input);
    assert TypedAs(input, a, "exit", [], [], b) by {
      assert "exit" + [] + [] == "exit";
    }
  }

  /** `exit` leaves the ticket, or ends a session that has none. */
  lemma ExitLeaves(p: Parsers, s: State, input: string)
    requires Typed(input, "exit", []) && !s.finished
    ensures var s' := LineStep(p, s, input);
      if s.ticket == 0 then s' == s.(finished := true)
      else
        && s'.ticket == 0 && !Busy(s') && !s'.finished && s'.handles == map[]
        && s'.log == s.log + [Sent(if s.resolving then Cnl(s.ticket) else Fin(s.ticket))]
             + if s.resolving then [Noticed(Cancelled)] else if s.operation != 0 then [Noticed(Detached)] else []
  {
    TextIs(input, "exit", [], "exit");
    hide Trim, Typed;
  }

  /** Closing ends the session for good: nothing is sent or noticed any more. */
  lemma OverForGood(p: Parsers, s: State, e: Event)
    requires Sane(s)
    ensures Step(p, s, Close).finished
    ensures s.finished ==>
      var s' := Step(p, s, e);
      s'.finished && s'.log == s.log + if e.Receive? then [Received(e.message)] else []
  {
    hide Trim, RequestStep, CommandStep;
    assert s.log + [] == s.log;
  }

  // ----- answers -----

  /** The answer to the pending operation closes its notice with Done exactly when it is OK, and
      the operation is released. */
  lemma AnswerCloses(s: State, id: nat, ok: bool)
    requires s.ticket != 0 && s.operation == id
    ensures var m := Rsp(s.ticket, id, ok);
      ReceiveStep(s, m) ==
      s.(operation := 0,
         log := s.log + [Received(m), Noticed(if ok then Done else Failed), Sent(Rel(s.ticket, id))])
  {
    var a, b, c := Received(Rsp(s.ticket, id, ok)), Noticed(if ok then Done else Failed), Sent(Rel(s.ticket, id));
    assert ((s.log + [a]) + [b]) + [c] == s.log + [a, b, c];
  }

  // Done comes right behind an accepted resolution or an OK answer, Failed behind any other answer
  // or an error frame.
  predicate NoticeMeant(log: seq<Entry>, i: nat)
    requires i < |log|
  {
    log[i] == Noticed(Done) || log[i] == Noticed(Failed) ==>
      && i > 0 && log[i - 1].Received?
      && var m := log[i - 1].message;
         if log[i] == Noticed(Done) then m.Acx? || (m.Rsp? && m.ok)
         else (m.Rsp? && !m.ok) || m.ErrTicket? || m.ErrOperation?
  }

  // The log grows by notices of neither kind.
  predicate Quiet(log: seq<Entry>, log': seq<Entry>) {
    log <= log' && forall i :: |log| <= i < |log'| ==> log'[i] != Noticed(Done) && log'[i] != Noticed(Failed)
  }

  lemma LeaveQuiet(s: State)
    ensures Quiet(s.log, Leave(s).log) && Quiet(s.log, CloseStep(s).log)
  {
  }

  lemma LineQuiet(p: Parsers, s: State, input: string)
    ensures Quiet(s.log, LineStep(p, s, input).log)
  {
    LeaveQuiet(s);
    hide Leave, Trim, WordLength, ParseHandle;
  }

  lemma ReceiveMeant(s: State, m: Message, i: nat)
    requires i < |ReceiveStep(s, m).log|
    ensures s.log <= ReceiveStep(s, m).log
    ensures i >= |s.log| ==> NoticeMeant(ReceiveStep(s, m).log, i)
  {
    hide Handles, Selection, Parents;
  }

  lemma StepMeant(p: Parsers, s: State, e: Event, i: nat)
    requires i < |Step(p, s, e).log|
    ensures s.log <= Step(p, s, e).log
    ensures i >= |s.log| ==> NoticeMeant(Step(p, s, e).log, i)
  {
    hide LineStep, ReceiveStep, CloseStep;
    match e {
      case Line(input) => LineQuiet(p, s, input);
      case Receive(m) => ReceiveMeant(s, m, i);
      case Close => LeaveQuiet(s);
    }
  }

  /** In every run a notice says Done only behind an accepted resolution or an answer that is OK,
      and Failed only behind another answer or an error. */
  lemma {:induction false} NoticesMeant(p: Parsers, events: seq<Event>, i: nat)
    requires i < |After(p, events).log|
    ensures NoticeMeant(After(p, events).log, i)
    decreases |events|
  {
    if events != [] {
      var init := events[..|events| - 1];
      var s := After(p, init);
      StepMeant(p, s, events[|events| - 1], i);
      if i < |s.log| {
        NoticesMeant(p, init, i);
        hide Step;
      }
    }
  }

  // ----- which handle is the target -----

  predicate Operating(s: State) { s.ticket != 0 && !s.resolving }

  // A line asks for handle h.
  ghost predicate Asks(input: string, h: nat) {
    exists rest :: Typed(input, "use", rest) && Numeral(rest) && Value(rest) == h < WIDE
  }

  // The reply to the pending request, with some matches.
  predicate Resolves(s: State, e: Event) {
    && s.ticket != 0 && s.resolving
    && e.Receive? && e.message.Acx? && e.message.ticket == s.ticket && e.message.nodes != []
  }

  // The least handle that is nobody's parent, or 0 when every handle is somebody's.
  ghost predicate Default(nodes: seq<Node>, h: nat) {
    LeastLeaf(nodes, h) || (h == 0 && forall k :: !Leaf(nodes, k))
  }

  /** An event that chooses a target: an accepted resolution, or an accepted `use`. */
  ghost predicate Chooses(s: State, e: Event, h: nat) {
    || (Resolves(s, e) && Default(e.message.nodes, h))
    || (e.Line? && Ready(s) && h in s.handles && Asks(e.input, h))
  }

  lemma ResolvedChooses(s: State, e: Event)
    requires Sane(s) && Resolves(s, e)
    ensures var s' := ReceiveStep(s, e.message);
      s'.ticket == s.ticket && !s'.resolving && s'.handles.Keys == Ids(e.message.nodes)
      && Default(e.message.nodes, s'.selected)
  {
    var nodes := e.message.nodes;
    HandlesAreIds(nodes);
    IdAt(nodes);
    assert Handles(nodes) != map[];
    if h :| Leaf(nodes, h) {
      SelectionKnown(nodes, s.selected);
    } else {
      NoLeaf(nodes, s.selected);
    }
    hide Handles, Selection, Parents, Ids, Default;
  }

  lemma NoLeaf(nodes: seq<Node>, otherwise: nat)
    requires forall h :: !Leaf(nodes, h)
    ensures Selection(Handles(nodes), Parents(nodes), otherwise) == otherwise
  {
    HandlesAreIds(nodes);
    hide Handles, Parents, Ids;
    assert forall h :: h in Handles(nodes).Keys - Parents(nodes) ==> Leaf(nodes, h);
  }

  // What every event does to the target.
  ghost predicate Steers(s: State, e: Event, s': State) {
    Operating(s') ==>
      || (&& Resolves(s, e) && s'.ticket == s.ticket && s'.handles.Keys == Ids(e.message.nodes)
          && Chooses(s, e, s'.selected))
      || (&& Operating(s) && s'.ticket == s.ticket && s'.handles == s.handles
          && if exists h :: Chooses(s, e, h) then Chooses(s, e, s'.selected) else s'.selected == s.selected)
  }

  lemma LineSteers(p: Parsers, s: State, input: string)
    requires Sane(s)
    ensures Steers(s, Line(input), LineStep(p, s, input))
  {
    var s' := LineStep(p, s, input);
    if Operating(s') {
      LineRemains(p, s, input);
      hide LineStep;
      if rest :| Ready(s) && Typed(input, "use", rest) {
        UseSelects(p, s, input, rest);
        forall h: nat | Asks(input, h) ensures Numeral(rest) && Value(rest) == h < WIDE {
          var r :| Typed(input, "use", r) && Numeral(r) && Value(r) == h < WIDE;
          TypedExactly(input, "use", r);
          TypedExactly(input, "use", rest);
        }
      } else {
        NoUse(p, s, input);
      }
    }
  }

  lemma LineRemains(p: Parsers, s: State, input: string)
    requires Sane(s) && Operating(LineStep(p, s, input))
    ensures var s' := LineStep(p, s, input); Operating(s) && s'.ticket == s.ticket && s'.handles == s.handles
  {
    hide Trim, WordLength, ParseHandle;
  }

  lemma NoUse(p: Parsers, s: State, input: string)
    requires Sane(s) && Operating(LineStep(p, s, input)) && Operating(s)
    requires !Ready(s) || forall rest :: !Typed(input, "use", rest)
    ensures LineStep(p, s, input).selected == s.selected
  {
    var t := Trim(input);
    if t != [] && Ready(s) {
      LineTyped(input);
    }
    hide Trim, WordLength, Typed;
  }

  lemma ReceiveSteers(p: Parsers, s: State, m: Message)
    requires Sane(s)
    ensures Steers(s, Receive(m), ReceiveStep(s, m))
  {
    var e := Receive(m);
    if Resolves(s, e) {
      ResolvedChooses(s, e);
      hide ReceiveStep, Default;
    } else {
      assert forall h :: !Chooses(s, e, h);
      hide Chooses, Handles, Selection;
      NoNodes();
    }
  }

  lemma NoNodes()
    ensures Handles([]) == map[]
  {
  }

  lemma StepSteers(p: Parsers, s: State, e: Event)
    requires Sane(s)
    ensures Steers(s, e, Step(p, s, e))
  {
    hide Steers, LineStep, ReceiveStep;
    match e {
      case Line(input) => LineSteers(p, s, input);
      case Receive(m) => ReceiveSteers(p, s, m);
      case Close => CloseSteers(s);
    }
  }

  lemma CloseSteers(s: State)
    ensures Steers(s, Close, CloseStep(s))
  {
  }

  // What the session was told and asked up to the event at j, in the run `events`.
  ghost predicate ResolvedAt(p: Parsers, events: seq<Event>, r: nat, ticket: nat, known: set<nat>)
    requires r < |events|
  {
    var s := After(p, events[..r]);
    Resolves(s, events[r]) && s.ticket == ticket && Ids(events[r].message.nodes) == known
  }

  ghost predicate ChosenAt(p: Parsers, events: seq<Event>, j: nat, h: nat)
    requires j < |events|
  {
    Chooses(After(p, events[..j]), events[j], h)
  }

  /** h is what the last accepted `use` since the ticket's resolution, at r, chose, or what the
      resolution itself did: no event after j chooses anything. */
  ghost predicate LastChoiceAt(p: Parsers, events: seq<Event>, ticket: nat, known: set<nat>, h: nat, r: nat, j: nat) {
    && r <= j < |events| && ResolvedAt(p, events, r, ticket, known) && ChosenAt(p, events, j, h)
    && forall i: nat, k: nat :: j < i < |events| ==> !ChosenAt(p, events, i, k)
  }

  ghost predicate LastChoice(p: Parsers, events: seq<Event>, ticket: nat, known: set<nat>, h: nat) {
    exists r: nat, j: nat :: LastChoiceAt(p, events, ticket, known, h, r, j)
  }

  lemma PrefixSame(p: Parsers, events: seq<Event>, i: nat, ticket: nat, known: set<nat>, h: nat)
    requires i + 1 < |events|
    ensures ResolvedAt(p, events, i, ticket, known) == ResolvedAt(p, events[..|events| - 1], i, ticket, known)
    ensures ChosenAt(p, events, i, h) == ChosenAt(p, events[..|events| - 1], i, h)
  {
    assert events[..|events| - 1][..i] == events[..i];
  }

  lemma ChoiceKept(p: Parsers, events: seq<Event>, n: nat, ticket: nat, known: set<nat>, h: nat)
    requires |events| == n + 1 && LastChoice(p, events[..n], ticket, known, h)
    requires forall k: nat :: !ChosenAt(p, events, n, k)
    ensures LastChoice(p, events, ticket, known, h)
  {
    hide ResolvedAt, ChosenAt, After;
    var init := events[..n];
    var r: nat, j: nat :| LastChoiceAt(p, init, ticket, known, h, r, j);
    PrefixSame(p, events, r, ticket, known, h);
    PrefixSame(p, events, j, ticket, known, h);
    forall i: nat, k: nat | j < i < |events| ensures !ChosenAt(p, events, i, k) {
      if i < |init| {
        PrefixSame(p, events, i, ticket, known, k);
      }
    }
    assert LastChoiceAt(p, events, ticket, known, h, r, j);
  }

  lemma ChoiceChanged(p: Parsers, events: seq<Event>, ticket: nat, known: set<nat>, was: nat, h: nat)
    requires events != [] && LastChoice(p, events[..|events| - 1], ticket, known, was)
    requires ChosenAt(p, events, |events| - 1, h)
    ensures LastChoice(p, events, ticket, known, h)
  {
    var init := events[..|events| - 1];
    var r: nat, j: nat :| LastChoiceAt(p, init, ticket, known, was, r, j);
    PrefixSame(p, events, r, ticket, known, h);
    hide ResolvedAt, ChosenAt;
    assert LastChoiceAt(p, events, ticket, known, h, r, |events| - 1);
  }

  /** In operation mode the target is always the last choice made, and the handles are those of the
      resolution. */
  lemma {:induction false} TargetIsLastChoice(p: Parsers, events: seq<Event>)
    ensures var s := After(p, events);
      Operating(s) ==> LastChoice(p, events, s.ticket, s.handles.Keys, s.selected)
    decreases |events|
  {
    if events != [] {
      var n := |events| - 1;
      var init, e := events[..n], events[n];
      var s, s' := After(p, init), After(p, events);
      TargetIsLastChoice(p, init);
      TicketDiscipline(p, init, 0);
      StepSteers(p, s, e);
      hide Step, Chooses, Sane, TrackOf, Ids, LastChoice;
      if Operating(s') {
        assert forall k: nat :: ChosenAt(p, events, n, k) <==> Chooses(s, e, k);
        if Resolves(s, e) && s'.ticket == s.ticket && s'.handles.Keys == Ids(e.message.nodes)
           && Chooses(s, e, s'.selected) {
          ResolvedLast(p, events, s'.ticket, s'.handles.Keys, s'.selected);
        } else if h: nat :| Chooses(s, e, h) {
          ChoiceChanged(p, events, s.ticket, s.handles.Keys, s.selected, s'.selected);
        } else {
          ChoiceKept(p, events, n, s.ticket, s.handles.Keys, s.selected);
        }
      }
    }
  }

  lemma ResolvedLast(p: Parsers, events: seq<Event>, ticket: nat, known: set<nat>, h: nat)
    requires events != []
    requires ResolvedAt(p, events, |events| - 1, ticket, known) && ChosenAt(p, events, |events| - 1, h)
    ensures LastChoice(p, events, ticket, known, h)
  {
    hide ResolvedAt, ChosenAt;
    assert LastChoiceAt(p, events, ticket, known, h, |events| - 1, |events| - 1);
  }

  // ----- what is sent -----

  predicate Asking(f: Frame) { f.Req? || f.Lin? || f.Opr? }

  ghost predicate Padded(input: string, text: string) {
    Bare(text) && exists a, b :: Blank(a) && Blank(b) && input == a + text + b
  }

  /** The line that makes the session, in state s, send the frame. */
  ghost predicate Typing(p: Parsers, s: State, input: string, f: Frame) {
    match f
    case Req(ticket, selector) =>
      s.ticket == 0 && ticket == s.nextTicket + 1 && Padded(input, selector) && p.isSelection(selector)
    case Lin(ticket, id, target) =>
      Ready(s) && ticket == s.ticket && id == s.nextOperation + 1 && target == s.selected && Typed(input, "lineage", [])
    case Opr(ticket, id, target, command, parameters) =>
      && Ready(s) && ticket == s.ticket && id == s.nextOperation + 1 && target == s.selected
      && Typed(input, command, parameters) && !Reserved(command, parameters) && command != "lineage"
      && (parameters == [] || p.isObject(parameters))
    case _ => false
  }

  lemma LineTypes(p: Parsers, s: State, input: string, i: nat)
    requires Sane(s) && |s.log| <= i < |LineStep(p, s, input).log|
    ensures var e := LineStep(p, s, input).log[i];
      e.Sent? && Asking(e.frame) ==> Typing(p, s, input, e.frame)
  {
    var t := Trim(input);
    if t == [] || s.finished || Busy(s) || t == "exit" || t == "help" {
      hide Trim, RequestStep, CommandStep;
    } else if s.ticket == 0 {
      var a, b := TrimKeeps(input);
      SelectorSent(p, s, a, t, b);
      hide Trim, LineStep;
    } else {
      LineTyped(input);
      var command, rest := t[..WordLength(t)], Trim(t[WordLength(t)..]);
      hide Trim, WordLength, LineStep;
      CommandTypes(p, s, input, command, rest, i);
    }
  }

  lemma CommandTypes(p: Parsers, s: State, input: string, command: string, rest: string, i: nat)
    requires Ready(s) && Typed(input, command, rest) && |s.log| <= i < |LineStep(p, s, input).log|
    ensures var e := LineStep(p, s, input).log[i];
      e.Sent? && Asking(e.frame) ==> Typing(p, s, input, e.frame)
  {
    if Reserved(command, rest) {
      CommandLine(p, s, input, command, rest);
      hide LineStep, Typed, ParseHandle;
    } else {
      CommandSent(p, s, input, command, rest);
      hide LineStep, Typed;
    }
  }

  lemma OthersAsk(s: State, m: Message, i: nat)
    ensures |s.log| <= i < |ReceiveStep(s, m).log| && ReceiveStep(s, m).log[i].Sent? ==>
            !Asking(ReceiveStep(s, m).log[i].frame)
    ensures |s.log| <= i < |CloseStep(s).log| && CloseStep(s).log[i].Sent? ==> !Asking(CloseStep(s).log[i].frame)
  {
    hide Handles, Selection, Parents;
  }

  lemma StepTypes(p: Parsers, s: State, e: Event, i: nat)
    requires Sane(s) && |s.log| <= i < |Step(p, s, e).log|
    ensures var x := Step(p, s, e).log[i];
      x.Sent? && Asking(x.frame) ==> e.Line? && Typing(p, s, e.input, x.frame)
  {
    hide LineStep, ReceiveStep, CloseStep, Typing;
    match e {
      case Line(input) => LineTypes(p, s, input, i);
      case Receive(m) => OthersAsk(s, m, i);
      case Close => OthersAsk(s, Other(0), i);
    }
  }

  /** Event k made the session send the frame, an operation to the last choice before it. */
  ghost predicate SentFor(p: Parsers, events: seq<Event>, k: nat, f: Frame) {
    && k < |events| && events[k].Line? && Typing(p, After(p, events[..k]), events[k].input, f)
    && (f.Lin? || f.Opr? ==> exists known :: LastChoice(p, events[..k], f.ticket, known, f.target))
  }

  lemma SentForLonger(p: Parsers, events: seq<Event>, k: nat, f: Frame)
    requires events != [] && SentFor(p, events[..|events| - 1], k, f)
    ensures SentFor(p, events, k, f)
  {
    assert events[..|events| - 1][..k] == events[..k];
    hide Typing, LastChoice;
  }

  lemma SentForLast(p: Parsers, events: seq<Event>, f: Frame)
    requires events != [] && Asking(f)
    requires var e := events[|events| - 1]; e.Line? && Typing(p, After(p, events[..|events| - 1]), e.input, f)
    ensures SentFor(p, events, |events| - 1, f)
  {
    var init := events[..|events| - 1];
    TargetIsLastChoice(p, init);
    hide LastChoice, Typed, Padded, After;
  }

  /** In every run each request, lineage query and operation sent goes back to one line: it carries
      that line's words, and an operation goes to the handle of the last accepted `use` since the
      resolution, or to the resolution's own choice when there was none. */
  lemma {:induction false} FramesAsTyped(p: Parsers, events: seq<Event>, i: nat)
    requires var log := After(p, events).log; i < |log| && log[i].Sent? && Asking(log[i].frame)
    ensures exists k: nat :: SentFor(p, events, k, After(p, events).log[i].frame)
    decreases |events|
  {
    var log := After(p, events).log;
    assert events != [];
    var n := |events| - 1;
    var init, e := events[..n], events[n];
    var s := After(p, init);
    StepMeant(p, s, e, i);
    if i < |s.log| {
      FramesAsTyped(p, init, i);
      var k: nat :| SentFor(p, init, k, s.log[i].frame);
      SentForLonger(p, events, k, s.log[i].frame);
    } else {
      TicketDiscipline(p, init, 0);
      hide Sane, TrackOf, SentFor, Typing;
      StepTypes(p, s, e, i);
      SentForLast(p, events, log[i].frame);
    }
  }

  /** The first node of a handle names its parent. */
  lemma {:induction false} FirstParent(nodes: seq<Node>, k: nat)
    requires k < |nodes| && forall i :: 0 <= i < k ==> nodes[i].id != nodes[k].id
    ensures nodes[k].id in Handles(nodes) && Handles(nodes)[nodes[k].id] == nodes[k].parent
    decreases |nodes|
  {
    var init := nodes[..|nodes| - 1];
    if k < |init| {
      assert init[k] == nodes[k];
      FirstParent(init, k);
    } else {
      HandlesAreIds(init);
    }
  }
}
