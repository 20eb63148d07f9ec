/** repl_session.cpp: the client side of an AUDMAP conversation, driven by user lines and by
    frames from the server. The callbacks `send` and `progress` are modelled by a log of what went
    through them, together with the frames received, in order. */
module ReplSession {
  import opened Common

  datatype Frame =
    | Req(ticket: nat, selector: string)
    | Cnl(ticket: nat)
    | Fin(ticket: nat)
    | Lin(ticket: nat, id: nat, target: nat)
    | Opr(ticket: nat, id: nat, target: nat, command: string, parameters: string)
    | Rel(ticket: nat, id: nat)

  // A node of a resolution: its handle, and its parent's handle or 0.
  datatype Node = Node(id: nat, parent: nat)

  datatype Message =
    | Acx(ticket: nat, nodes: seq<Node>)
    | Rsp(ticket: nat, id: nat, ok: bool)
    | ErrTicket(ticket: nat)              // an error frame of three fields
    | ErrOperation(ticket: nat, id: nat)  // a longer one
    | Other(ticket: nat)

  datatype Notice = Resolving | Running | Done | Failed | Cancelled | Detached

  datatype Entry = Sent(frame: Frame) | Received(message: Message) | Noticed(notice: Notice)

  /** What the selector parser and the JSON parser accept. */
  datatype Parsers = Parsers(isSelection: string -> bool, isObject: string -> bool)

  datatype State = State(
    nextTicket: nat, ticket: nat, nextOperation: nat, operation: nat, selected: nat,
    handles: map<nat, nat>, resolving: bool, finished: bool, log: seq<Entry>)

  const Fresh: State := State(0, 0, 0, 0, 0, map[], false, false, [])

  predicate Busy(s: State) { s.resolving || s.operation != 0 }

  // ----- text -----

  predicate Space(c: char) { c == ' ' || c == '\t' || c == '\r' || c == '\n' }

  function TrimLeft(s: string): string {
    if s != [] && Space(s[0]) then TrimLeft(s[1..]) else s
  }

  function TrimRight(s: string): string {
    if s != [] && Space(s[|s| - 1]) then TrimRight(s[..|s| - 1]) else s
  }

  function Trim(s: string): string { TrimRight(TrimLeft(s)) }

  // The length of the first word: up to the first blank or tab.
  function WordLength(s: string): (n: nat)
    ensures n <= |s|
  {
    if s == [] || s[0] == ' ' || s[0] == '\t' then 0 else 1 + WordLength(s[1..])
  }

  // std::from_chars on the whole text, into 64 bits.
  function ParseHandle(s: string): Option<nat> {
    if s == [] then None
    else if !('0' <= s[|s| - 1] <= '9') then None
    else
      var digit := (s[|s| - 1] as int) - ('0' as int);
      if |s| == 1 then Some(digit)
      else match ParseHandle(s[..|s| - 1])
        case None => None
        case Some(v) => if 10 * v + digit < 0x1_0000_0000_0000_0000 then Some(10 * v + digit) else None
  }

  // ----- what each call does -----

  function Emit(s: State, e: Entry): State { s.(log := s.log + [e]) }

  function Reset(s: State): State {
    s.(ticket := 0, operation := 0, selected := 0, resolving := false, handles := map[])
  }

  // Cancel or finish the ticket, close a pending notice, forget everything.
  function Farewell(s: State): Frame { if s.resolving then Cnl(s.ticket) else Fin(s.ticket) }

  function Leave(s: State): State {
    var s1 := Emit(s, Sent(Farewell(s)));
    var s2 := if Busy(s) then Emit(s1, Noticed(if s.resolving then Cancelled else Detached)) else s1;
    Reset(s2)
  }

  function CloseStep(s: State): State {
    if s.ticket != 0 then Leave(s).(finished := true)
    else
      var s1 := if Busy(s) then Emit(s, Noticed(if s.resolving then Cancelled else Detached)) else s;
      Reset(s1).(finished := true)
  }

  function RequestStep(p: Parsers, s: State, text: string): State {
    if !p.isSelection(text) then s
    else
      var id := s.nextTicket + 1;
      Emit(Emit(s, Sent(Req(id, text))).(nextTicket := id, ticket := id, resolving := true), Noticed(Resolving))
  }

  function UseStep(s: State, rest: string): State {
    match ParseHandle(rest)
    case Some(id) => if id in s.handles then s.(selected := id) else s
    case None => s
  }

  // The operation number is spent even when the arguments are refused.
  function OperateStep(p: Parsers, s: State, command: string, rest: string): State {
    var id := s.nextOperation + 1;
    var s1 := s.(nextOperation := id);
    if command == "lineage" then
      if rest != [] then s1 else Started(s1, Lin(s.ticket, id, s.selected))
    else
      if rest != [] && !p.isObject(rest) then s1
      else Started(s1, Opr(s.ticket, id, s.selected, command, rest))
  }

  function Started(s: State, f: Frame): State {
    Emit(Emit(s, Sent(f)).(operation := s.nextOperation), Noticed(Running))
  }

  function CommandStep(p: Parsers, s: State, text: string): State {
    var command, rest := text[..WordLength(text)], Trim(text[WordLength(text)..]);
    if text == "handles" then s
    else if command == "use" then UseStep(s, rest)
    else OperateStep(p, s, command, rest)
  }

  function LineStep(p: Parsers, s: State, input: string): State {
    var text := Trim(input);
    if text == [] || s.finished then s
    else if text == "exit" then if s.ticket == 0 then s.(finished := true) else Leave(s)
    else if text == "help" || Busy(s) then s
    else if s.ticket == 0 then RequestStep(p, s, text)
    else CommandStep(p, s, text)
  }

  // The map built from a reply: the first entry of a handle counts.
  function Handles(nodes: seq<Node>): map<nat, nat> {
    if nodes == [] then map[]
    else
      var m, n := Handles(nodes[..|nodes| - 1]), nodes[|nodes| - 1];
      if n.id in m then m else m[n.id := n.parent]
  }

  function Parents(nodes: seq<Node>): set<nat> { set k | 0 <= k < |nodes| :: nodes[k].parent }

  function Ids(nodes: seq<Node>): set<nat> { set k | 0 <= k < |nodes| :: nodes[k].id }

  // A handle that is nobody's parent.
  predicate Leaf(nodes: seq<Node>, h: nat) { h in Ids(nodes) && h !in Parents(nodes) }

  predicate LeastLeaf(nodes: seq<Node>, h: nat) {
    Leaf(nodes, h) && forall k :: Leaf(nodes, k) ==> h <= k
  }

  function Least(s: set<nat>): (m: nat)
    requires s != {}
    ensures m in s && forall x :: x in s ==> m <= x
  {
    LeastExists(s);
    var m :| m in s && forall x :: x in s ==> m <= x;
    m
  }

  lemma {:induction false} LeastExists(s: set<nat>)
    requires s != {}
    ensures exists m :: m in s && forall x :: x in s ==> m <= x
  {
    var y :| y in s;
    if s - {y} == {} {
      assert s == {y};
    } else {
      LeastExists(s - {y});
      var m :| m in s - {y} && forall x :: x in s - {y} ==> m <= x;
      var best := if y < m then y else m;
      assert forall x :: x in s ==> x == y || x in s - {y};
      assert best in s && forall x :: x in s ==> best <= x;
    }
  }

  function Selection(handles: map<nat, nat>, parents: set<nat>, otherwise: nat): nat {
    if handles.Keys - parents == {} then otherwise else Least(handles.Keys - parents)
  }

  function ResolvedStep(s: State, nodes: seq<Node>): State {
    var s1 := Emit(s, Noticed(Done)).(resolving := false, handles := Handles(nodes));
    if s1.handles == map[] then Reset(Emit(s1, Sent(Fin(s.ticket))))
    else s1.(selected := Selection(s1.handles, Parents(nodes), s.selected))
  }

  function ReceiveStep(s0: State, m: Message): State {
    var s := Emit(s0, Received(m));
    if s.ticket == 0 || m.ticket != s.ticket then s
    else match m
      case Acx(_, nodes) => if s.resolving then ResolvedStep(s, nodes) else s
      case Rsp(_, id, ok) =>
        if id == s.operation then
          Emit(Emit(s, Noticed(if ok then Done else Failed)), Sent(Rel(s.ticket, id))).(operation := 0)
        else s
      case ErrTicket(_) => Reset(if Busy(s) then Emit(s, Noticed(Failed)) else s)
      case ErrOperation(_, id) =>
        if id == s.operation then (if Busy(s) then Emit(s, Noticed(Failed)) else s).(operation := 0) else s
      case Other(_) => s
  }

  datatype Event = Line(input: string) | Receive(message: Message) | Close

  function Step(p: Parsers, s: State, e: Event): State {
    match e
    case Line(input) => LineStep(p, s, input)
    case Receive(m) => ReceiveStep(s, m)
    case Close => CloseStep(s)
  }

  function After(p: Parsers, events: seq<Event>): State {
    if events == [] then Fresh else Step(p, After(p, events[..|events| - 1]), events[|events| - 1])
  }

  // ----- the class -----

  class Session {
    var nextTicket: nat
    var ticket: nat
    var nextOperation: nat
    var operation: nat
    var selected: nat
    var handles: map<nat, nat>
    var resolving: bool
    var finished: bool
    var log: seq<Entry>
    const parsers: Parsers

    function View(): State
      reads this
    {
      State(nextTicket, ticket, nextOperation, operation, selected, handles, resolving, finished, log)
    }

    // No call but Input, ReceiveFrame and CloseSession comes from outside; each keeps this.
    ghost predicate Valid()
      reads this
    {
      Sane(View())
    }

    constructor (parsers: Parsers)
      ensures Valid() && View() == Fresh && this.parsers == parsers
    {
      this.parsers := parsers;
      nextTicket, ticket, nextOperation, operation, selected := 0, 0, 0, 0, 0;
      handles, resolving, finished, log := map[], false, false, [];
    }

    method Note(e: Entry)
      modifies this`log
      ensures View() == Emit(old(View()), e)
    {
      log := log + [e];
    }

    method ResetAll()
      modifies this`ticket, this`operation, this`selected, this`resolving, this`handles
      ensures View() == Reset(old(View()))
    {
      ticket := 0;
      operation := 0;
      selected := 0;
      resolving := false;
      handles := map[];
    }

    method CloseSession()
      requires Valid()
      modifies this
      ensures Valid() && View() == CloseStep(old(View()))
    {
      StepSane(parsers, View(), Close);
      if ticket != 0 {
        Note(Sent(if resolving then Cnl(ticket) else Fin(ticket)));
      }
      if resolving || operation != 0 {
        Note(Noticed(if resolving then Cancelled else Detached));
      }
      ResetAll();
      finished := true;
    }

    method Request(text: string)
      modifies this
      ensures View() == RequestStep(parsers, old(View()), text)
    {
      if !parsers.isSelection(text) {
        return;
      }
      nextTicket := nextTicket + 1;
      var id := nextTicket;
      Note(Sent(Req(id, text)));
      ticket := id;
      resolving := true;
      Note(Noticed(Resolving));
    }

    method Operate(command: string, rest: string)
      modifies this
      ensures View() == OperateStep(parsers, old(View()), command, rest)
    {
      nextOperation := nextOperation + 1;
      var id := nextOperation;
      if command == "lineage" {
        if rest != [] {
          return;
        }
        Note(Sent(Lin(ticket, id, selected)));
      } else {
        if rest != [] && !parsers.isObject(rest) {
          return;
        }
        Note(Sent(Opr(ticket, id, selected, command, rest)));
      }
      operation := id;
      Note(Noticed(Running));
    }

    method Input(input: string)
      requires Valid()
      modifies this
      ensures Valid() && View() == LineStep(parsers, old(View()), input)
    {
      StepSane(parsers, View(), Line(input));
      var text := Trim(input);
      if text == [] || finished {
        return;
      }
      if text == "exit" {
        if ticket == 0 {
          finished := true;
          return;
        }
        Note(Sent(if resolving then Cnl(ticket) else Fin(ticket)));
        if resolving || operation != 0 {
          Note(Noticed(if resolving then Cancelled else Detached));
        }
        ResetAll();
        return;
      }
      if text == "help" || resolving || operation != 0 {
        return;
      }
      if ticket == 0 {
        Request(text);
        return;
      }
      if text == "handles" {
        return;
      }
      var split := WordLength(text);
      var command, rest := text[..split], Trim(text[split..]);
      if command == "use" {
        var parsed := ParseHandle(rest);
        if parsed.Some? && parsed.value in handles {
          selected := parsed.value;
        }
        return;
      }
      Operate(command, rest);
    }

    // Reads the nodes of a reply into the handle map, then walks the handles in ascending order
    // to the first that is nobody's parent.
    method ReadNodes(nodes: seq<Node>)
      requires handles == map[]
      modifies this`handles, this`selected
      ensures handles == Handles(nodes)
      ensures selected == Selection(Handles(nodes), Parents(nodes), old(selected))
    {
      var parents: set<nat> := {};
      for i := 0 to |nodes|
        invariant handles == Handles(nodes[..i]) && parents == Parents(nodes[..i])
        invariant selected == old(selected)
      {
        assert nodes[..i + 1][..i] == nodes[..i];
        ParentsSnoc(nodes[..i + 1]);
        if nodes[i].id !in handles {
          handles := handles[nodes[i].id := nodes[i].parent];
        }
        parents := parents + {nodes[i].parent};
      }
      assert nodes[..|nodes|] == nodes;
      var rest := handles.Keys;
      while rest != {}
        invariant rest <= handles.Keys && handles == Handles(nodes) && selected == old(selected)
        invariant forall h :: h in handles && h !in rest ==> h in parents && forall k :: k in rest ==> h <= k
        decreases |rest|
      {
        var h := Least(rest);
        if h !in parents {
          assert h in handles.Keys - parents;
          selected := h;
          return;
        }
        rest := rest - {h};
      }
      assert handles.Keys - parents == {};
    }

    method Resolve(nodes: seq<Node>)
      requires handles == map[]
      modifies this
      ensures View() == ResolvedStep(old(View()), nodes)
    {
      Note(Noticed(Done));
      resolving := false;
      ReadNodes(nodes);
      if handles == map[] {
        Note(Sent(Fin(ticket)));
        ResetAll();
      }
    }

    method ReceiveFrame(m: Message)
      requires Valid()
      modifies this
      ensures Valid() && View() == ReceiveStep(old(View()), m)
    {
      StepSane(parsers, View(), Receive(m));
      Note(Received(m));
      if ticket == 0 || m.ticket != ticket {
        return;
      }
      if m.Acx? && resolving {
        Resolve(m.nodes);
      } else if m.Rsp? && m.id == operation {
        Note(Noticed(if m.ok then Done else Failed));
        Note(Sent(Rel(ticket, operation)));
        operation := 0;
      } else if m.ErrTicket? {
        if resolving || operation != 0 {
          Note(Noticed(Failed));
        }
        ResetAll();
      } else if m.ErrOperation? && m.id == operation {
        if resolving || operation != 0 {
          Note(Noticed(Failed));
        }
        operation := 0;
      }
    }
  }

  lemma ParentsSnoc(nodes: seq<Node>)
    requires nodes != []
    ensures Parents(nodes) == Parents(nodes[..|nodes| - 1]) + {nodes[|nodes| - 1].parent}
  {
    var init := nodes[..|nodes| - 1];
    forall x | x in Parents(nodes) ensures x in Parents(init) + {nodes[|nodes| - 1].parent} {
      var k :| 0 <= k < |nodes| && nodes[k].parent == x;
      assert k < |init| ==> init[k].parent == x;
    }
    forall x | x in Parents(init) ensures x in Parents(nodes) {
      var k :| 0 <= k < |init| && init[k].parent == x;
      assert nodes[k].parent == x;
    }
  }

  lemma IdsSnoc(nodes: seq<Node>)
    requires nodes != []
    ensures Ids(nodes) == Ids(nodes[..|nodes| - 1]) + {nodes[|nodes| - 1].id}
  {
    var init := nodes[..|nodes| - 1];
    forall x | x in Ids(nodes) ensures x in Ids(init) + {nodes[|nodes| - 1].id} {
      var k :| 0 <= k < |nodes| && nodes[k].id == x;
      assert k < |init| ==> init[k].id == x;
    }
    forall x | x in Ids(init) ensures x in Ids(nodes) {
      var k :| 0 <= k < |init| && init[k].id == x;
      assert nodes[k].id == x;
    }
  }

  lemma {:induction false} HandlesAreIds(nodes: seq<Node>)
    ensures Handles(nodes).Keys == Ids(nodes)
  {
    if nodes != [] {
      HandlesAreIds(nodes[..|nodes| - 1]);
      IdsSnoc(nodes);
    }
  }

  // ----- the life of a ticket -----

  datatype Life = Unused | Pending | Open | Ended | Broken

  /** The protocol as one ticket sees it: requested once, then either cancelled while pending or
      finished once it has been accepted, or ended by the server; nothing is sent for it outside
      that time. `Broken` is any other order. */
  function LifeStep(l: Life, e: Entry, t: nat): Life {
    match e
    case Sent(f) =>
      if f.ticket != t then l
      else if f.Req? then if l == Unused then Pending else Broken
      else if f.Cnl? then if l == Pending then Ended else Broken
      else if f.Fin? then if l == Open then Ended else Broken
      else if f.Rel? then if l == Open || l == Pending then l else Broken
      else if l == Open then Open else Broken
    case Received(m) =>
      if m.ticket != t then l
      else if m.Acx? && l == Pending then Open
      else if m.ErrTicket? && (l == Pending || l == Open) then Ended
      else l
    case Noticed(_) => l
  }

  // The newest ticket requested, or -1 once a request reuses an old one or a frame names a ticket
  // never requested.
  function NewestStep(newest: int, e: Entry): int {
    if !e.Sent? then newest
    else if e.frame.Req? then if 0 <= newest < e.frame.ticket then e.frame.ticket else -1
    else if 0 < e.frame.ticket <= newest then newest else -1
  }

  datatype Track = Track(life: Life, newest: int)

  function TrackStep(k: Track, e: Entry, t: nat): Track { Track(LifeStep(k.life, e, t), NewestStep(k.newest, e)) }

  function TrackOf(log: seq<Entry>, t: nat): Track {
    if log == [] then Track(Unused, 0) else TrackStep(TrackOf(log[..|log| - 1], t), log[|log| - 1], t)
  }

  lemma TrackSnoc(log: seq<Entry>, e: Entry, t: nat)
    ensures TrackOf(log + [e], t) == TrackStep(TrackOf(log, t), e, t)
  {
    assert (log + [e])[..|log|] == log;
  }

  // Where the session thinks a ticket is.
  function ExpectedLife(s: State, t: nat): Life {
    if t == 0 || t > s.nextTicket then Unused
    else if t == s.ticket then if s.resolving then Pending else Open
    else Ended
  }

  predicate Sane(s: State) {
    && s.ticket <= s.nextTicket
    && (s.ticket == 0 ==> !s.resolving && s.operation == 0)
    && (s.ticket == 0 || s.resolving ==> s.operation == 0 && s.handles == map[] && s.selected == 0)
    && (s.finished ==> s.ticket == 0)
    && s.operation <= s.nextOperation
  }

  predicate LifeAsExpected(s: State, t: nat) { TrackOf(s.log, t) == Track(ExpectedLife(s, t), s.nextTicket) }

  lemma StepSane(p: Parsers, s: State, e: Event)
    requires Sane(s)
    ensures Sane(Step(p, s, e))
  {
    hide Trim, WordLength, ParseHandle, Handles, Selection, Parents;
  }

  lemma LeaveLife(s: State, t: nat)
    requires Sane(s) && LifeAsExpected(s, t) && s.ticket != 0
    ensures LifeAsExpected(Leave(s), t)
  {
    hide TrackOf;
    var f := Sent(Farewell(s));
    TrackSnoc(s.log, f, t);
    TrackSnoc(s.log + [f], Noticed(Cancelled), t);
    TrackSnoc(s.log + [f], Noticed(Detached), t);
  }

  lemma RequestLife(p: Parsers, s: State, text: string, t: nat)
    requires Sane(s) && LifeAsExpected(s, t) && s.ticket == 0
    ensures LifeAsExpected(RequestStep(p, s, text), t)
  {
    hide TrackOf;
    var f := Sent(Req(s.nextTicket + 1, text));
    TrackSnoc(s.log, f, t);
    TrackSnoc(s.log + [f], Noticed(Resolving), t);
  }

  lemma StartedLife(s: State, f: Frame, t: nat)
    requires Sane(s) && LifeAsExpected(s, t) && s.ticket != 0 && !s.resolving
    requires f.ticket == s.ticket && (f.Lin? || f.Opr?)
    ensures LifeAsExpected(Started(s, f), t)
  {
    hide TrackOf;
    TrackSnoc(s.log, Sent(f), t);
    TrackSnoc(s.log + [Sent(f)], Noticed(Running), t);
  }

  lemma CommandLife(p: Parsers, s: State, text: string, t: nat)
    requires Sane(s) && LifeAsExpected(s, t) && s.ticket != 0 && !s.resolving
    ensures LifeAsExpected(CommandStep(p, s, text), t)
  {
    hide TrackOf, Trim, WordLength, ParseHandle, Started;
    var command, rest := text[..WordLength(text)], Trim(text[WordLength(text)..]);
    var id := s.nextOperation + 1;
    var s1 := s.(nextOperation := id);
    StartedLife(s1, Lin(s.ticket, id, s.selected), t);
    StartedLife(s1, Opr(s.ticket, id, s.selected, command, rest), t);
  }

  lemma LineLife(p: Parsers, s: State, input: string, t: nat)
    requires Sane(s) && LifeAsExpected(s, t)
    ensures LifeAsExpected(LineStep(p, s, input), t)
  {
    hide TrackOf, Trim, Leave, RequestStep, CommandStep;
    var text := Trim(input);
    if s.ticket == 0 {
      RequestLife(p, s, text, t);
    } else {
      LeaveLife(s, t);
      if !s.resolving {
        CommandLife(p, s, text, t);
      }
    }
  }

  lemma ResolvedLife(s0: State, m: Message, t: nat)
    requires Sane(s0) && LifeAsExpected(s0, t) && s0.ticket != 0 && m.ticket == s0.ticket && m.Acx? && s0.resolving
    ensures LifeAsExpected(ResolvedStep(Emit(s0, Received(m)), m.nodes), t)
  {
    hide TrackOf, Handles, Selection, Parents;
    var log1 := s0.log + [Received(m)];
    var log2 := log1 + [Noticed(Done)];
    TrackSnoc(s0.log, Received(m), t);
    TrackSnoc(log1, Noticed(Done), t);
    TrackSnoc(log2, Sent(Fin(s0.ticket)), t);
  }

  lemma AnsweredLife(s0: State, m: Message, t: nat)
    requires Sane(s0) && LifeAsExpected(s0, t) && !m.Acx? && s0.ticket != 0 && m.ticket == s0.ticket
    ensures LifeAsExpected(ReceiveStep(s0, m), t)
  {
    hide TrackOf;
    var log1 := s0.log + [Received(m)];
    TrackSnoc(s0.log, Received(m), t);
    TrackSnoc(log1, Noticed(Done), t);
    TrackSnoc(log1, Noticed(Failed), t);
    if m.Rsp? {
      TrackSnoc(log1 + [Noticed(Done)], Sent(Rel(s0.ticket, m.id)), t);
      TrackSnoc(log1 + [Noticed(Failed)], Sent(Rel(s0.ticket, m.id)), t);
    }
  }

  lemma ReceiveLife(s: State, m: Message, t: nat)
    requires Sane(s) && LifeAsExpected(s, t)
    ensures LifeAsExpected(ReceiveStep(s, m), t)
  {
    hide TrackOf, ResolvedStep, LifeAsExpected;
    if m.ticket != s.ticket || s.ticket == 0 || (m.Acx? && !s.resolving) {
      IgnoredLife(s, m, t);
    } else if m.Acx? {
      ResolvedLife(s, m, t);
    } else {
      AnsweredLife(s, m, t);
    }
  }

  lemma IgnoredLife(s: State, m: Message, t: nat)
    requires Sane(s) && LifeAsExpected(s, t)
    requires m.ticket != s.ticket || s.ticket == 0 || (m.Acx? && !s.resolving)
    ensures LifeAsExpected(Emit(s, Received(m)), t)
  {
    hide TrackOf;
    TrackSnoc(s.log, Received(m), t);
  }

  lemma StepLife(p: Parsers, s: State, e: Event, t: nat)
    requires Sane(s) && LifeAsExpected(s, t)
    ensures LifeAsExpected(Step(p, s, e), t)
  {
    match e {
      case Line(input) => LineLife(p, s, input, t);
      case Receive(m) => ReceiveLife(s, m, t);
      case Close =>
        if s.ticket != 0 {
          LeaveLife(s, t);
        }
        hide TrackOf, Leave;
    }
  }

  /** In every run every ticket lives by the protocol, requests use ever larger tickets, and the
      session knows where each ticket is. */
  lemma {:induction false} TicketDiscipline(p: Parsers, events: seq<Event>, t: nat)
    ensures var s := After(p, events);
      Sane(s) && TrackOf(s.log, t) == Track(ExpectedLife(s, t), s.nextTicket) && TrackOf(s.log, t).life != Broken
    decreases |events|
  {
    if events != [] {
      var init := events[..|events| - 1];
      TicketDiscipline(p, init, t);
      hide Step, TrackOf, Sane;
      StepSane(p, After(p, init), events[|events| - 1]);
      StepLife(p, After(p, init), events[|events| - 1], t);
    }
  }

  // ----- the same, read off the log -----

  lemma {:induction false} PrefixTrack(log: seq<Entry>, i: nat, t: nat)
    requires i <= |log|
    ensures TrackOf(log, t).newest >= 0 ==> 0 <= TrackOf(log[..i], t).newest <= TrackOf(log, t).newest
    ensures TrackOf(log[..i], t).life == Broken ==> TrackOf(log, t).life == Broken
    ensures TrackOf(log[..i], t).life == Ended ==> TrackOf(log, t).life == Ended || TrackOf(log, t).life == Broken
    decreases |log|
  {
    if i == |log| {
      assert log[..i] == log;
    } else {
      var init := log[..|log| - 1];
      assert init[..i] == log[..i];
      PrefixTrack(init, i, t);
    }
  }

  lemma SentAt(log: seq<Entry>, i: nat, t: nat)
    requires i < |log|
    ensures TrackOf(log[..i + 1], t) == TrackStep(TrackOf(log[..i], t), log[i], t)
  {
    assert log[..i + 1][..i] == log[..i];
  }

  /** For any two frames sent in a run: a request has a larger ticket than every frame before it;
      after CNL or FIN nothing is sent for that ticket, so no ticket gets both or either twice. */
  lemma SentFramesInOrder(p: Parsers, events: seq<Event>, i: nat, j: nat)
    ensures var log := After(p, events).log;
      i < j < |log| && log[i].Sent? && log[j].Sent? ==>
        && (log[j].frame.Req? ==> log[i].frame.ticket < log[j].frame.ticket)
        && (log[i].frame.Cnl? || log[i].frame.Fin? ==> log[j].frame.ticket != log[i].frame.ticket)
  {
    hide TrackOf, After;
    var log := After(p, events).log;
    if i < j < |log| && log[i].Sent? && log[j].Sent? {
      var t := log[i].frame.ticket;
      TicketDiscipline(p, events, t);
      PrefixTrack(log, j + 1, t);
      PrefixTrack(log[..j + 1], j, t);
      SentAt(log, j, t);
      assert log[..j + 1][..j] == log[..j];
      PrefixTrack(log[..j], i + 1, t);
      assert log[..j][..i + 1] == log[..i + 1];
      PrefixTrack(log[..i + 1], i, t);
      SentAt(log, i, t);
      assert log[..i + 1][..i] == log[..i];
    }
  }

  /** CNL is sent only while the server has not accepted the ticket, FIN and operations only after
      it has. */
  lemma CancelOnlyWhilePending(p: Parsers, events: seq<Event>, i: nat)
    ensures var log := After(p, events).log;
      i < |log| && log[i].Sent? ==>
        var f := log[i].frame;
        var life := TrackOf(log[..i], f.ticket).life;
        && (f.Req? <==> life == Unused) && (f.Cnl? ==> life == Pending)
        && (f.Fin? || f.Lin? || f.Opr? ==> life == Open)
  {
    var log := After(p, events).log;
    if i < |log| && log[i].Sent? {
      var t := log[i].frame.ticket;
      TicketDiscipline(p, events, t);
      PrefixTrack(log, i + 1, t);
      SentAt(log, i, t);
    }
  }

  /** A frame for any ticket but the current one changes nothing. */
  lemma OtherTicketsIgnored(s: State, m: Message)
    requires m.ticket != s.ticket || s.ticket == 0
    ensures ReceiveStep(s, m) == s.(log := s.log + [Received(m)])
  {
  }

  // ----- progress notices -----

  // The notice waiting to be closed.
  datatype Waiting = Nothing | On(notice: Notice)

  predicate Opening(n: Notice) { n.Resolving? || n.Running? }

  predicate Closes(closing: Notice, opening: Notice) {
    && Opening(opening) && !Opening(closing)
    && (closing.Cancelled? ==> opening.Resolving?) && (closing.Detached? ==> opening.Running?)
  }

  // The notices of a log, in order.
  function Notices(log: seq<Entry>): seq<Notice> {
    if log == [] then []
    else
      var last := log[|log| - 1];
      Notices(log[..|log| - 1]) + (if last.Noticed? then [last.notice] else [])
  }

  // Opening notices at even places, each answered by a closing one that fits it.
  predicate Alternate(ns: seq<Notice>) {
    && (forall k :: 0 <= k < |ns| && k % 2 == 0 ==> Opening(ns[k]))
    && forall k :: 0 <= k < |ns| && k % 2 == 1 ==> Closes(ns[k], ns[k - 1])
  }

  function LastOpen(ns: seq<Notice>): Waiting { if |ns| % 2 == 0 then Nothing else On(ns[|ns| - 1]) }

  function ExpectedWaiting(s: State): Waiting {
    if s.resolving then On(Resolving) else if s.operation != 0 then On(Running) else Nothing
  }

  /** Every opening notice has exactly one closing notice before the next, and the last is open
      exactly when the session is busy. */
  predicate NoticesOk(s: State) {
    Alternate(Notices(s.log)) && (Busy(s) <==> |Notices(s.log)| % 2 == 1)
  }

  // The open notice is moreover the one for what the session waits for.
  predicate Waits(s: State) { Alternate(Notices(s.log)) && LastOpen(Notices(s.log)) == ExpectedWaiting(s) }

  // Whether a notice may come next.
  predicate Fits(w: Waiting, n: Notice) {
    match w case Nothing => Opening(n) case On(m) => Closes(n, m)
  }

  lemma NoticesSnoc(log: seq<Entry>, e: Entry)
    ensures Notices(log + [e]) == if e.Noticed? then Notices(log) + [e.notice] else Notices(log)
  {
    assert (log + [e])[..|log|] == log;
  }

  lemma AlternateSnoc(ns: seq<Notice>, n: Notice)
    requires Alternate(ns)
    ensures Alternate(ns + [n]) <==> Fits(LastOpen(ns), n)
    ensures LastOpen(ns + [n]) == if LastOpen(ns) == Nothing then On(n) else Nothing
  {
    hide Closes, Opening;
    var out := ns + [n];
    assert forall k :: 0 <= k < |ns| ==> out[k] == ns[k];
    assert out[|ns|] == n;
    if Fits(LastOpen(ns), n) {
      forall k | 0 <= k < |out| && k % 2 == 1 ensures Closes(out[k], out[k - 1]) {
      }
      forall k | 0 <= k < |out| && k % 2 == 0 ensures Opening(out[k]) {
      }
    }
  }

  lemma WaitsMeansOk(s: State)
    requires Waits(s)
    ensures NoticesOk(s)
  {
    hide Alternate, Notices;
  }

  // One notice is added to the log, and the state goes from waiting for one thing to waiting for
  // another.
  lemma NoticeAdded(s: State, n: Notice, s': State)
    requires Waits(s) && Notices(s'.log) == Notices(s.log) + [n]
    ensures var good := Fits(ExpectedWaiting(s), n) && Busy(s') != Busy(s);
            && (good && (Busy(s') ==> ExpectedWaiting(s') == On(n)) ==> Waits(s'))
            && (!good ==> !NoticesOk(s'))
  {
    AlternateSnoc(Notices(s.log), n);
    hide Alternate, Notices, Fits;
  }

  lemma NothingAdded(s: State, s': State)
    requires Waits(s) && Notices(s'.log) == Notices(s.log) && ExpectedWaiting(s') == ExpectedWaiting(s)
    ensures Waits(s')
  {
  }

  /** An answer taken for one that was never asked: it names operation 0 while no operation is
      pending. An error frame does harm only while resolving. */
  predicate Misdirected(s: State, m: Message) {
    && s.ticket != 0 && m.ticket == s.ticket && s.operation == 0
    && ((m.Rsp? && m.id == 0) || (m.ErrOperation? && m.id == 0 && s.resolving))
  }

  predicate MisdirectedBy(s: State, e: Event) { e.Receive? && Misdirected(s, e.message) }

  lemma LeaveNotices(s: State)
    requires Sane(s) && Waits(s)
    ensures Waits(Leave(s))
  {
    hide Notices, Alternate, Waits;
    var f := Sent(Farewell(s));
    NoticesSnoc(s.log, f);
    if Busy(s) {
      var n := if s.resolving then Cancelled else Detached;
      NoticesSnoc(s.log + [f], Noticed(n));
      NoticeAdded(s, n, Leave(s));
    } else {
      NothingAdded(s, Leave(s));
    }
  }

  lemma RequestNotices(p: Parsers, s: State, text: string)
    requires Sane(s) && Waits(s) && s.ticket == 0
    ensures Waits(RequestStep(p, s, text))
  {
    hide Notices, Alternate, Waits;
    var f := Sent(Req(s.nextTicket + 1, text));
    NoticesSnoc(s.log, f);
    NoticesSnoc(s.log + [f], Noticed(Resolving));
    if p.isSelection(text) {
      NoticeAdded(s, Resolving, RequestStep(p, s, text));
    }
  }

  lemma StartedNotices(s: State, f: Frame)
    requires Waits(s) && !Busy(s) && s.nextOperation != 0
    ensures Waits(Started(s, f))
  {
    hide Notices, Alternate, Waits;
    NoticesSnoc(s.log, Sent(f));
    NoticesSnoc(s.log + [Sent(f)], Noticed(Running));
    NoticeAdded(s, Running, Started(s, f));
  }

  lemma CommandNotices(p: Parsers, s: State, text: string)
    requires Waits(s) && !Busy(s)
    ensures Waits(CommandStep(p, s, text))
  {
    hide Notices, Alternate, Waits, Trim, WordLength, ParseHandle, Started;
    var command, rest := text[..WordLength(text)], Trim(text[WordLength(text)..]);
    var id := s.nextOperation + 1;
    var s1 := s.(nextOperation := id);
    NothingAdded(s, s1);
    StartedNotices(s1, Lin(s.ticket, id, s.selected));
    StartedNotices(s1, Opr(s.ticket, id, s.selected, command, rest));
    NothingAdded(s, UseStep(s, rest));
  }

  lemma LineNotices(p: Parsers, s: State, input: string)
    requires Sane(s) && Waits(s)
    ensures Waits(LineStep(p, s, input))
  {
    hide Notices, Alternate, Waits, Trim, Leave, RequestStep, CommandStep;
    var text := Trim(input);
    LeaveNotices(s);
    if s.ticket == 0 {
      RequestNotices(p, s, text);
    }
    if !Busy(s) {
      CommandNotices(p, s, text);
    }
    NothingAdded(s, s.(finished := true));
  }

  lemma ResolvedNotices(s0: State, m: Message)
    requires Sane(s0) && Waits(s0) && s0.ticket != 0 && m.ticket == s0.ticket && m.Acx? && s0.resolving
    ensures Waits(ResolvedStep(Emit(s0, Received(m)), m.nodes))
  {
    hide Notices, Alternate, Waits, Handles, Selection, Parents;
    var log1 := s0.log + [Received(m)];
    NoticesSnoc(s0.log, Received(m));
    NoticesSnoc(log1, Noticed(Done));
    NoticesSnoc(log1 + [Noticed(Done)], Sent(Fin(s0.ticket)));
    NoticeAdded(s0, Done, ResolvedStep(Emit(s0, Received(m)), m.nodes));
  }

  lemma AnsweredNotices(s0: State, m: Message)
    requires Sane(s0) && Waits(s0) && s0.ticket != 0 && m.ticket == s0.ticket && m.Rsp? && m.id == s0.operation
    ensures if Misdirected(s0, m) then !NoticesOk(ReceiveStep(s0, m)) else Waits(ReceiveStep(s0, m))
  {
    hide Notices, Alternate, Waits, NoticesOk;
    var log1, n := s0.log + [Received(m)], if m.ok then Done else Failed;
    NoticesSnoc(s0.log, Received(m));
    NoticesSnoc(log1, Noticed(n));
    NoticesSnoc(log1 + [Noticed(n)], Sent(Rel(s0.ticket, m.id)));
    NoticeAdded(s0, n, ReceiveStep(s0, m));
  }

  lemma FailedNotices(s0: State, m: Message)
    requires Sane(s0) && Waits(s0) && s0.ticket != 0 && m.ticket == s0.ticket
    requires m.ErrTicket? || (m.ErrOperation? && m.id == s0.operation)
    ensures if Misdirected(s0, m) then !NoticesOk(ReceiveStep(s0, m)) else Waits(ReceiveStep(s0, m))
  {
    hide Notices, Alternate, Waits, NoticesOk;
    NoticesSnoc(s0.log, Received(m));
    NoticesSnoc(s0.log + [Received(m)], Noticed(Failed));
    if Busy(s0) {
      NoticeAdded(s0, Failed, ReceiveStep(s0, m));
    } else {
      NothingAdded(s0, ReceiveStep(s0, m));
    }
  }

  // A frame that is of no interest.
  predicate Ignored(s: State, m: Message) {
    || s.ticket == 0 || m.ticket != s.ticket || m.Other? || (m.Acx? && !s.resolving)
    || ((m.Rsp? || m.ErrOperation?) && m.id != s.operation)
  }

  lemma ReceiveNotices(s: State, m: Message)
    requires Sane(s) && Waits(s)
    ensures if Misdirected(s, m) then !NoticesOk(ReceiveStep(s, m)) else Waits(ReceiveStep(s, m))
  {
    if Ignored(s, m) {
      hide Notices, Alternate, Waits, NoticesOk, ResolvedStep;
      NoticesSnoc(s.log, Received(m));
      NothingAdded(s, ReceiveStep(s, m));
    } else if m.Acx? {
      hide Waits, NoticesOk, ResolvedStep;
      ResolvedNotices(s, m);
    } else if m.Rsp? {
      hide Waits, NoticesOk, ReceiveStep;
      AnsweredNotices(s, m);
    } else {
      hide Waits, NoticesOk, ReceiveStep;
      FailedNotices(s, m);
    }
  }

  lemma CloseNotices(s: State)
    requires Sane(s) && Waits(s)
    ensures Waits(CloseStep(s))
  {
    hide Notices, Alternate, Waits;
    if s.ticket != 0 {
      LeaveNotices(s);
      hide Leave;
      NothingAdded(Leave(s), CloseStep(s));
    } else {
      NothingAdded(s, CloseStep(s));
    }
  }

  lemma StepNotices(p: Parsers, s: State, e: Event)
    requires Sane(s) && Waits(s)
    ensures if MisdirectedBy(s, e) then !NoticesOk(Step(p, s, e)) else Waits(Step(p, s, e))
  {
    hide NoticesOk, Misdirected, Waits, Sane, ReceiveStep, LineStep, CloseStep;
    match e {
      case Line(input) => LineNotices(p, s, input);
      case Receive(m) => ReceiveNotices(s, m);
      case Close => CloseNotices(s);
    }
  }

  // After every event of the run.
  predicate AlwaysNoticed(p: Parsers, events: seq<Event>) {
    NoticesOk(After(p, events)) && (events == [] || AlwaysNoticed(p, events[..|events| - 1]))
  }

  predicate NeverMisdirected(p: Parsers, events: seq<Event>) {
    events == [] ||
    var init := events[..|events| - 1];
    NeverMisdirected(p, init) && !MisdirectedBy(After(p, init), events[|events| - 1])
  }

  /** The notices of a run are right after every event exactly when no answer is misdirected. */
  lemma {:induction false} NoticesExactly(p: Parsers, events: seq<Event>)
    ensures AlwaysNoticed(p, events) <==> NeverMisdirected(p, events)
    ensures NeverMisdirected(p, events) ==> Waits(After(p, events))
    decreases |events|
  {
    if events == [] {
      WaitsMeansOk(After(p, events));
    } else {
      var init, last := events[..|events| - 1], events[|events| - 1];
      NoticesExactly(p, init);
      TicketDiscipline(p, init, 0);
      hide Step, Sane, Waits, NoticesOk, MisdirectedBy, TrackOf;
      if NeverMisdirected(p, init) {
        StepNotices(p, After(p, init), last);
        if Waits(After(p, events)) {
          WaitsMeansOk(After(p, events));
        }
      }
    }
  }

  // ----- operations and targets -----

  datatype OpLife = Unasked | Asked(ticket: nat) | Answered(ticket: nat) | Over

  datatype Conduct = Conduct(op: OpLife, ticket: nat, pending: bool, known: set<nat>, right: bool)

  /** Operation number `id` as the protocol wants it: asked once, of a handle the last accepted
      resolution named; released once and only after its answer. */
  function SentConduct(c: Conduct, f: Frame, id: nat): Conduct {
    match f
    case Req(t, _) => c.(ticket := t, pending := true, known := {})
    case Cnl(t) => if c.op == Asked(t) then c.(op := Over) else c
    case Fin(t) => if c.op == Asked(t) then c.(op := Over) else c
    case Lin(t, k, h) => AskedConduct(c, t, k, h, id)
    case Opr(t, k, h, _, _) => AskedConduct(c, t, k, h, id)
    case Rel(t, k) => if k != id then c else c.(op := Over, right := c.right && c.op == Answered(t))
  }

  function AskedConduct(c: Conduct, t: nat, k: nat, h: nat, id: nat): Conduct {
    var c1 := c.(right := c.right && h in c.known && c.ticket == t);
    if k != id then c1 else c1.(op := Asked(t), right := c1.right && c.op == Unasked)
  }

  function ReceivedConduct(c: Conduct, m: Message, id: nat): Conduct {
    match m
    case Acx(t, nodes) => if t == c.ticket && c.pending then c.(known := Ids(nodes), pending := false) else c
    case Rsp(t, k, _) => if k == id && c.op == Asked(t) then c.(op := Answered(t)) else c
    case ErrTicket(t) => if c.op == Asked(t) then c.(op := Over) else c
    case ErrOperation(t, k) => if k == id && c.op == Asked(t) then c.(op := Over) else c
    case Other(_) => c
  }

  function ConductStep(c: Conduct, e: Entry, id: nat): Conduct {
    match e
    case Sent(f) => SentConduct(c, f, id)
    case Received(m) => ReceivedConduct(c, m, id)
    case Noticed(_) => c
  }

  function ConductOf(log: seq<Entry>, id: nat): Conduct {
    if log == [] then Conduct(Unasked, 0, false, {}, true)
    else ConductStep(ConductOf(log[..|log| - 1], id), log[|log| - 1], id)
  }

  lemma ConductSnoc(log: seq<Entry>, e: Entry, id: nat)
    ensures ConductOf(log + [e], id) == ConductStep(ConductOf(log, id), e, id)
  {
    assert (log + [e])[..|log|] == log;
  }

  predicate OpAsExpected(s: State, op: OpLife, id: nat) {
    if id == s.operation then op == Asked(s.ticket)
    else (op == Unasked || op == Over) && (id > s.nextOperation ==> op == Unasked)
  }

  // In operation mode the target is a handle of the resolution.
  predicate TargetKnown(s: State) { s.ticket != 0 && !s.resolving ==> s.selected in s.handles }

  predicate Agrees(s: State, c: Conduct, id: nat) {
    && c.right && OpAsExpected(s, c.op, id)
    && (s.ticket != 0 ==>
          c.ticket == s.ticket && c.pending == s.resolving && (!s.resolving ==> c.known == s.handles.Keys))
  }

  predicate Behaves(s: State, id: nat) { Sane(s) && TargetKnown(s) && Agrees(s, ConductOf(s.log, id), id) }

  /** An accepted resolution in which every handle is some node's parent, and 0 is no handle. */
  ghost predicate Leafless(s: State, m: Message) {
    && s.ticket != 0 && m.ticket == s.ticket && s.resolving && m.Acx? && m.nodes != []
    && 0 !in Ids(m.nodes) && forall h :: !Leaf(m.nodes, h)
  }

  ghost predicate LeaflessBy(s: State, e: Event) { e.Receive? && Leafless(s, e.message) }

  lemma LeaveBehaves(s: State, id: nat)
    requires Behaves(s, id) && s.ticket != 0 && id != 0
    ensures Behaves(Leave(s), id)
  {
    hide ConductOf;
    var f := Sent(Farewell(s));
    ConductSnoc(s.log, f, id);
    ConductSnoc(s.log + [f], Noticed(Cancelled), id);
    ConductSnoc(s.log + [f], Noticed(Detached), id);
  }

  lemma RequestBehaves(p: Parsers, s: State, text: string, id: nat)
    requires Behaves(s, id) && s.ticket == 0 && !s.finished && id != 0
    ensures Behaves(RequestStep(p, s, text), id)
  {
    hide ConductOf;
    var f := Sent(Req(s.nextTicket + 1, text));
    ConductSnoc(s.log, f, id);
    ConductSnoc(s.log + [f], Noticed(Resolving), id);
  }

  lemma StartedBehaves(s: State, f: Frame, id: nat)
    requires Behaves(s, id) && s.ticket != 0 && !Busy(s) && id != 0
    requires (f.Lin? || f.Opr?) && f.ticket == s.ticket && f.id == s.nextOperation + 1 && f.target == s.selected
    ensures Behaves(Started(s.(nextOperation := f.id), f), id)
  {
    hide ConductOf;
    ConductSnoc(s.log, Sent(f), id);
    ConductSnoc(s.log + [Sent(f)], Noticed(Running), id);
  }

  lemma CommandBehaves(p: Parsers, s: State, text: string, id: nat)
    requires Behaves(s, id) && s.ticket != 0 && !Busy(s) && id != 0
    ensures Behaves(CommandStep(p, s, text), id)
  {
    hide ConductOf, Trim, WordLength, ParseHandle, Started;
    var command, rest := text[..WordLength(text)], Trim(text[WordLength(text)..]);
    var k := s.nextOperation + 1;
    StartedBehaves(s, Lin(s.ticket, k, s.selected), id);
    StartedBehaves(s, Opr(s.ticket, k, s.selected, command, rest), id);
  }

  lemma LineBehaves(p: Parsers, s: State, input: string, id: nat)
    requires Behaves(s, id) && id != 0
    ensures Behaves(LineStep(p, s, input), id)
  {
    hide ConductOf, Trim, Leave, RequestStep, CommandStep;
    var text := Trim(input);
    if s.ticket == 0 {
      if !s.finished {
        RequestBehaves(p, s, text, id);
      }
    } else {
      LeaveBehaves(s, id);
      if !Busy(s) {
        CommandBehaves(p, s, text, id);
      }
    }
  }

  lemma SelectionKnown(nodes: seq<Node>, otherwise: nat)
    requires exists h :: Leaf(nodes, h)
    ensures LeastLeaf(nodes, Selection(Handles(nodes), Parents(nodes), otherwise))
  {
    HandlesAreIds(nodes);
    hide Handles, Parents, Ids;
    var leaves := Handles(nodes).Keys - Parents(nodes);
    assert forall h :: Leaf(nodes, h) <==> h in leaves;
  }

  lemma ResolvedBehaves(s0: State, m: Message, id: nat)
    requires Behaves(s0, id) && id != 0 && !Leafless(s0, m)
    requires s0.ticket != 0 && m.ticket == s0.ticket && m.Acx? && s0.resolving
    ensures Behaves(ReceiveStep(s0, m), id)
  {
    TargetKnownExactly(s0, m);
    hide ConductOf, Handles, Selection, Parents, Ids, Leaf;
    var log1 := s0.log + [Received(m)];
    var log2 := log1 + [Noticed(Done)];
    ConductSnoc(s0.log, Received(m), id);
    ConductSnoc(log1, Noticed(Done), id);
    ConductSnoc(log2, Sent(Fin(s0.ticket)), id);
    HandlesAreIds(m.nodes);
  }

  lemma AnsweredBehaves(s0: State, m: Message, id: nat)
    requires Behaves(s0, id) && id != 0
    requires m.Rsp? && s0.ticket != 0 && m.ticket == s0.ticket && m.id == s0.operation
    ensures Behaves(ReceiveStep(s0, m), id)
  {
    hide ConductOf;
    var log1 := s0.log + [Received(m)];
    var n := if m.ok then Done else Failed;
    ConductSnoc(s0.log, Received(m), id);
    ConductSnoc(log1, Noticed(n), id);
    ConductSnoc(log1 + [Noticed(n)], Sent(Rel(s0.ticket, m.id)), id);
  }

  lemma FailedBehaves(s0: State, m: Message, id: nat)
    requires Behaves(s0, id) && id != 0
    requires s0.ticket != 0 && m.ticket == s0.ticket
    requires m.ErrTicket? || (m.ErrOperation? && m.id == s0.operation)
    ensures Behaves(ReceiveStep(s0, m), id)
  {
    hide ConductOf;
    ConductSnoc(s0.log, Received(m), id);
    ConductSnoc(s0.log + [Received(m)], Noticed(Failed), id);
  }

  lemma IgnoredBehaves(s: State, m: Message, id: nat)
    requires Behaves(s, id) && id != 0 && Ignored(s, m)
    ensures Behaves(Emit(s, Received(m)), id)
  {
    hide ConductOf, Ids;
    ConductSnoc(s.log, Received(m), id);
  }

  lemma ReceiveBehaves(s: State, m: Message, id: nat)
    requires Behaves(s, id) && id != 0 && !Leafless(s, m)
    ensures Behaves(ReceiveStep(s, m), id)
  {
    if Ignored(s, m) {
      hide Behaves, ResolvedStep;
      IgnoredBehaves(s, m, id);
    } else if m.Acx? {
      hide Behaves, ReceiveStep, Leafless;
      ResolvedBehaves(s, m, id);
    } else if m.Rsp? {
      hide Behaves, ReceiveStep;
      AnsweredBehaves(s, m, id);
    } else {
      hide Behaves, ReceiveStep;
      FailedBehaves(s, m, id);
    }
  }

  lemma StepBehaves(p: Parsers, s: State, e: Event, id: nat)
    requires Behaves(s, id) && id != 0
    ensures if LeaflessBy(s, e) then !TargetKnown(Step(p, s, e)) else Behaves(Step(p, s, e), id)
  {
    match e {
      case Line(input) => LineBehaves(p, s, input, id);
      case Receive(m) =>
        if Leafless(s, m) {
          LeaflessLoses(s, m);
        } else {
          ReceiveBehaves(s, m, id);
        }
      case Close =>
        hide ConductOf, Leave;
        if s.ticket != 0 {
          LeaveBehaves(s, id);
        }
    }
  }

  lemma LeaflessLoses(s: State, m: Message)
    requires Sane(s) && Leafless(s, m)
    ensures !TargetKnown(ReceiveStep(s, m))
  {
    TargetKnownExactly(s, m);
    HandlesAreIds(m.nodes);
    IdAt(m.nodes);
    hide Handles, Selection, Parents, Ids, Leaf;
  }

  predicate AlwaysTargeted(p: Parsers, events: seq<Event>) {
    TargetKnown(After(p, events)) && (events == [] || AlwaysTargeted(p, events[..|events| - 1]))
  }

  ghost predicate NeverLeafless(p: Parsers, events: seq<Event>) {
    events == [] ||
    var init := events[..|events| - 1];
    NeverLeafless(p, init) && !LeaflessBy(After(p, init), events[|events| - 1])
  }

  /** The target is a known handle after every event of a run exactly when no accepted resolution is
      leafless; and then every operation is asked of a known handle, and asked, answered and
      released in order. */
  lemma {:induction false} ConductExactly(p: Parsers, events: seq<Event>, id: nat)
    requires id != 0
    ensures AlwaysTargeted(p, events) <==> NeverLeafless(p, events)
    ensures NeverLeafless(p, events) ==>
      var s := After(p, events); Behaves(s, id) && Agrees(s, ConductOf(s.log, id), id)
    decreases |events|
  {
    if events != [] {
      var init, last := events[..|events| - 1], events[|events| - 1];
      ConductExactly(p, init, id);
      hide Step, ConductOf, Agrees, LeaflessBy, TargetKnown, Sane;
      if NeverLeafless(p, init) {
        StepBehaves(p, After(p, init), last, id);
      }
    }
  }

  /** The first target of a resolution is the least handle that is nobody's parent. */
  lemma FirstTarget(s: State, m: Message)
    requires s.ticket != 0 && m.ticket == s.ticket && m.Acx? && s.resolving
    requires exists h :: Leaf(m.nodes, h)
    ensures LeastLeaf(m.nodes, ReceiveStep(s, m).selected)
  {
    SelectionKnown(m.nodes, s.selected);
    HandlesAreIds(m.nodes);
    hide Handles, Selection, Parents, Ids;
    var h :| Leaf(m.nodes, h);
    assert h in Handles(m.nodes).Keys;
  }

  /** A resolution without such a handle leaves a target that is no handle (unless 0 is one), and
      that is the only way. */
  lemma TargetKnownExactly(s: State, m: Message)
    requires s.ticket != 0 && m.ticket == s.ticket && m.Acx? && s.resolving && s.selected == 0
    ensures var s' := ReceiveStep(s, m);
      if m.nodes == [] then s'.ticket == 0
      else s'.ticket == s.ticket && (s'.selected in s'.handles <==> 0 in Ids(m.nodes) || exists h :: Leaf(m.nodes, h))
  {
    if m.nodes == [] {
      HandlesOfNone(m.nodes);
    } else {
      HandlesAreIds(m.nodes);
      IdAt(m.nodes);
      hide Handles, Parents, Ids;
      if h :| Leaf(m.nodes, h) {
        SelectionKnown(m.nodes, s.selected);
      } else {
        assert Handles(m.nodes).Keys - Parents(m.nodes) == {} by {
          forall h | h in Handles(m.nodes).Keys ensures h in Parents(m.nodes) {
            assert !Leaf(m.nodes, h);
          }
        }
      }
    }
  }

  lemma HandlesOfNone(nodes: seq<Node>)
    ensures nodes == [] ==> Handles(nodes) == map[]
  {
  }

  lemma IdAt(nodes: seq<Node>)
    requires nodes != []
    ensures nodes[0].id in Ids(nodes)
  {
  }

  // Children lie strictly deeper than their parents.
  predicate Ranks(nodes: seq<Node>, rank: map<nat, nat>) {
    forall k :: 0 <= k < |nodes| ==>
      && nodes[k].id in rank
      && (nodes[k].parent in Ids(nodes) ==>
            nodes[k].parent in rank && rank[nodes[k].parent] < rank[nodes[k].id])
  }

  /** Every non-empty acyclic resolution has such a handle: a deepest one. */
  lemma AcyclicHasLeaf(nodes: seq<Node>, rank: map<nat, nat>)
    requires nodes != [] && Ranks(nodes, rank)
    ensures exists h :: Leaf(nodes, h)
  {
    var deepest := 0;
    for k := 1 to |nodes|
      invariant 0 <= deepest < |nodes|
      invariant forall i :: 0 <= i < k ==> rank[nodes[i].id] <= rank[nodes[deepest].id]
    {
      if rank[nodes[deepest].id] < rank[nodes[k].id] {
        deepest := k;
      }
    }
    assert Leaf(nodes, nodes[deepest].id);
  }

  const Unnumbered: seq<Event> := [Line("@"), Receive(ErrOperation(1, 0)), Receive(Acx(1, [Node(1, 0)]))]

  lemma UnnumberedRun(p: Parsers)
    requires p.isSelection("@")
    ensures After(p, Unnumbered).log
         == [Sent(Req(1, "@")), Noticed(Resolving)] + [Received(ErrOperation(1, 0))] + [Noticed(Failed)]
            + [Received(Acx(1, [Node(1, 0)]))] + [Noticed(Done)]
  {
    var e1, e2, e3 := Unnumbered[0], Unnumbered[1], Unnumbered[2];
    assert Unnumbered[..2] == [e1, e2] && [e1, e2][..1] == [e1] && [e1][..0] == [];
    var s1 := State(1, 1, 0, 0, 0, map[], true, false, [Sent(Req(1, "@")), Noticed(Resolving)]);
    assert LineStep(p, Fresh, "@") == s1 by {
      assert Trim("@") == "@";
    }
    hide LineStep;
    var s2 := s1.(log := s1.log + [Received(e2.message)] + [Noticed(Failed)]);
    assert ReceiveStep(s1, e2.message) == s2;
    HandlesAreIds(e3.message.nodes);
    IdAt(e3.message.nodes);
    hide Handles, Ids, Selection;
    assert After(p, [e1]) == s1;
    assert After(p, [e1, e2]) == s2;
  }

  /** An error frame naming operation 0 closes the resolving notice early, and the reply then
      closes it again. */
  lemma UnnumberedAnswerClosesTwice(p: Parsers)
    requires p.isSelection("@")
    ensures Notices(After(p, Unnumbered).log) == [Resolving, Failed, Done]
  {
    UnnumberedRun(p);
    hide After, Notices;
    var log1 := [Sent(Req(1, "@")), Noticed(Resolving)];
    var log2 := log1 + [Received(ErrOperation(1, 0))];
    var log3 := log2 + [Noticed(Failed)];
    var log4 := log3 + [Received(Acx(1, [Node(1, 0)]))];
    FirstNotices(Req(1, "@"), Resolving);
    NoticesSnoc(log1, Received(ErrOperation(1, 0)));
    NoticesSnoc(log2, Noticed(Failed));
    NoticesSnoc(log3, Received(Acx(1, [Node(1, 0)])));
    NoticesSnoc(log4, Noticed(Done));
  }

  lemma FirstNotices(f: Frame, n: Notice)
    ensures Notices([Sent(f), Noticed(n)]) == [n]
  {
    var log := [Sent(f)];
    assert log[..0] == [] && Notices(log) == [];
    NoticesSnoc(log, Noticed(n));
    assert log + [Noticed(n)] == [Sent(f), Noticed(n)];
  }

  /** A session driven by events does what the runs above describe. */
  method Drive(parsers: Parsers, events: seq<Event>) returns (s: Session)
    ensures fresh(s) && s.Valid() && s.View() == After(parsers, events)
  {
    s := new Session(parsers);
    for i := 0 to |events|
      invariant fresh(s) && s.Valid() && s.parsers == parsers && s.View() == After(parsers, events[..i])
    {
      assert events[..i + 1][..i] == events[..i];
      match events[i] {
        case Line(input) => s.Input(input);
        case Receive(m) => s.ReceiveFrame(m);
        case Close => s.CloseSession();
      }
    }
    assert events[..|events|] == events;
  }
}
