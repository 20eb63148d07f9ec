/** bpf.c: the label table, and the backward pass that turns labelled code into a program
    with relative jumps. */
module BpfResolve {
  import opened Common
  import opened BpfMachine

  const LABELS_MAX: nat := 512
  const MAX_LABEL_LEN: nat := 32
  const UNRESOLVED: Word := 0xffff_ffff

  // ----- label identifiers -----

  // The table's label strings; a label's id is its index.
  type Names = n: seq<string> | |n| <= LABELS_MAX

  // strndup(label, MAX_BPF_LABEL_LEN)
  function Stored(s: string): string { if |s| <= MAX_LABEL_LEN then s else s[..MAX_LABEL_LEN] }

  // Index of the first entry equal to s; |names| when there is none.
  function IndexOf(names: seq<string>, s: string, from: nat): (i: nat)
    requires from <= |names|
    ensures from <= i <= |names|
    ensures i < |names| ==> names[i] == s
    ensures forall j :: from <= j < i ==> names[j] != s
    decreases |names| - from
  {
    if from == |names| || names[from] == s then from else IndexOf(names, s, from + 1)
  }

  /** The table after asking for label s, and the id found or given; no id when the table is
      full and s is not in it. */
  function Lookup(names: Names, s: string): (Names, Option<Word>) {
    var i := IndexOf(names, s, 0);
    if i < |names| then (names, Some(i))
    else if |names| >= LABELS_MAX then (names, None)
    else (names + [Stored(s)], Some(i))
  }

  /** A label keeps its id: once given, every later request returns it and changes nothing. */
  lemma LookupStable(names: Names, s: string, later: Names)
    requires |s| <= MAX_LABEL_LEN
    requires Lookup(names, s).1.Some? && Lookup(names, s).0 <= later
    ensures Lookup(later, s) == (later, Lookup(names, s).1)
  {
    var i := Lookup(names, s).1.value;
    assert later[i] == Lookup(names, s).0[i] == s;
    assert forall j :: 0 <= j < i ==> later[j] == names[j];
  }

  lemma LookupGrows(names: Names, s: string)
    ensures names <= Lookup(names, s).0
    ensures Lookup(names, s).1.Some? ==> Lookup(names, s).1.value < |Lookup(names, s).0|
  {
  }

  class Labels {
    var names: Names
    var location: seq<Word>

    ghost predicate Valid()
      reads this
    {
      |names| == |location|
    }

    ghost predicate Unplaced()
      reads this
    {
      forall i :: 0 <= i < |location| ==> location[i] == UNRESOLVED
    }

    constructor ()
      ensures Valid() && Unplaced() && names == []
    {
      names, location := [], [];
    }

    /** bpf_label_id */
    method LabelId(name: string) returns (id: int)
      requires Valid() && Unplaced()
      modifies this
      ensures Valid() && Unplaced()
      ensures names == Lookup(old(names), name).0
      ensures Lookup(old(names), name).1 == if id < 0 then None else Some(id)
      ensures id >= -1
    {
      id := 0;
      while id < |names|
        invariant 0 <= id <= |names|
        invariant forall j :: 0 <= j < id ==> names[j] != name
      {
        if names[id] == name {
          return;
        }
        id := id + 1;
      }
      if |names| == LABELS_MAX {
        return -1;
      }
      names := names + [Stored(name)];
      location := location + [UNRESOLVED];
    }
  }

  // ----- jump resolution -----

  predicate DistinctLabels(p: Code) {
    forall i, j :: 0 <= i < j < |p| && IsLabel(p[i]) && IsLabel(p[j]) ==> p[i].k != p[j].k
  }

  // Position i can be resolved, `count` labels being known.
  predicate ResolvableAt(p: Code, count: nat, i: nat)
    requires i < |p|
  {
    && (IsLabel(p[i]) ==> p[i].k < count)
    && (IsJump(p[i]) ==> p[i].k < count && FindLabel(p, p[i].k, i + 1) < |p|)
  }

  /** Exactly the code bpf_resolve_jumps accepts: not too long, no label placed twice, and
      every jump names a known label placed after it. */
  predicate Resolvable(p: Code, count: nat) {
    && |p| <= MAX_INSNS
    && DistinctLabels(p)
    && forall i :: 0 <= i < |p| ==> ResolvableAt(p, count, i)
  }

  /** What bpf_resolve_jumps does: it accepts, refuses, or meets a label whose id is not in the table
      and reads the table there all the same; the ids of jumps it does check. */
  datatype Resolution = Accepted | Refused | OutOfTable

  // Walking backward, such a label is met while everything behind it is in order.
  predicate Strays(p: Code, count: nat) {
    && |p| <= MAX_INSNS
    && exists i :: 0 <= i < |p| && IsLabel(p[i]) && p[i].k >= count && Resolvable(p[i + 1..], count)
  }

  function Resolve(p: Code, count: nat): Resolution {
    if Resolvable(p, count) then Accepted else if Strays(p, count) then OutOfTable else Refused
  }

  lemma DistinctBehind(p: Code, n: nat)
    requires n <= |p|
    ensures DistinctLabels(p[n..]) <==> DistinctFrom(p, n)
  {
    var b := p[n..];
    if DistinctLabels(b) {
      forall i, j | n <= i < j < |p| && IsLabel(p[i]) && IsLabel(p[j]) ensures p[i].k != p[j].k {
        assert b[i - n] == p[i] && b[j - n] == p[j];
      }
    }
    if DistinctFrom(p, n) {
      forall i, j | 0 <= i < j < |b| && IsLabel(b[i]) && IsLabel(b[j]) ensures b[i].k != b[j].k {
        assert b[i] == p[n + i] && b[j] == p[n + j];
      }
    }
  }

  lemma ResolvableBehind(p: Code, count: nat, n: nat, i: nat)
    requires n <= i < |p|
    ensures ResolvableAt(p[n..], count, i - n) <==> ResolvableAt(p, count, i)
  {
    var a, b := p[..n], p[n..];
    assert p == a + b && b[i - n] == p[i];
    FindLabelShift(a, b, p[i].k, i - n + 1);
  }

  // A stretch at the end of the code is in order by itself.
  lemma OrderedFrom(p: Code, count: nat, n: nat)
    requires n <= |p| <= MAX_INSNS
    ensures Resolvable(p[n..], count) <==>
            DistinctFrom(p, n) && forall i :: n <= i < |p| ==> ResolvableAt(p, count, i)
  {
    var b := p[n..];
    DistinctBehind(p, n);
    hide DistinctLabels, DistinctFrom, ResolvableAt;
    if forall i :: 0 <= i < |b| ==> ResolvableAt(b, count, i) {
      forall i | n <= i < |p| ensures ResolvableAt(p, count, i) {
        ResolvableBehind(p, count, n, i);
        assert ResolvableAt(b, count, i - n);
      }
    }
    if forall i :: n <= i < |p| ==> ResolvableAt(p, count, i) {
      forall i | 0 <= i < |b| ensures ResolvableAt(b, count, i) {
        ResolvableBehind(p, count, n, n + i);
      }
    }
  }

  // The walk stops at the first instruction that is not in order, and what it finds there decides.
  lemma StopsAt(p: Code, count: nat, n: nat)
    requires n < |p| <= MAX_INSNS && Resolvable(p[n + 1..], count) && !Resolvable(p[n..], count)
    ensures Resolve(p, count) == if IsLabel(p[n]) && p[n].k >= count then OutOfTable else Refused
  {
    hide ResolvableAt;
    forall i | 0 <= i < n && IsLabel(p[i]) ensures !Resolvable(p[i + 1..], count) {
      StaysUnresolvable(p, count, i + 1, n);
    }
    StaysUnresolvable(p, count, 0, n);
    assert p[0..] == p;
    forall i | n < i < |p| && IsLabel(p[i]) ensures p[i].k < count {
      StrayIsUnresolvable(p[n + 1..], count, i - (n + 1));
    }
  }

  lemma StaysUnresolvable(p: Code, count: nat, i: nat, n: nat)
    requires i <= n <= |p| <= MAX_INSNS && !Resolvable(p[n..], count)
    ensures !Resolvable(p[i..], count)
  {
    OrderedFrom(p, count, n);
    OrderedFrom(p, count, i);
    hide Resolvable, ResolvableAt;
  }

  lemma StrayIsUnresolvable(p: Code, count: nat, i: nat)
    requires i < |p| && Resolvable(p, count) && IsLabel(p[i])
    ensures p[i].k < count
  {
    assert ResolvableAt(p, count, i);
  }

  function ResolvedAt(p: Code, i: nat): Instr
    requires i < |p|
  {
    if IsJump(p[i]) then
      var t := FindLabel(p, p[i].k, i + 1);
      if t < |p| <= MAX_INSNS then Instr(Ja, t - (i + 1), 0, 0) else p[i]
    else if IsLabel(p[i]) then Instr(Ja, 0, 0, 0)
    else p[i]
  }

  function Resolved(p: Code): Code {
    seq(|p|, i requires 0 <= i < |p| => ResolvedAt(p, i))
  }

  // Location of label id among the instructions from n on.
  function Placed(p: Code, id: Word, n: nat): Word
    requires n <= |p| <= MAX_INSNS
  {
    var t := FindLabel(p, id, n);
    if t < |p| then t else UNRESOLVED
  }

  // A label instruction is found from its own position, and is the first one placed twice.
  lemma PlacedStep(p: Code, id: Word, n: nat)
    requires 0 < n <= |p| <= MAX_INSNS
    ensures Placed(p, id, n - 1) == if p[n - 1] == LabelAt(id) then n - 1 else Placed(p, id, n)
  {
  }

  // No two labels at or after n agree.
  predicate DistinctFrom(p: Code, n: nat) {
    forall i, j :: n <= i < j < |p| && IsLabel(p[i]) && IsLabel(p[j]) ==> p[i].k != p[j].k
  }

  lemma DistinctExtends(p: Code, n: nat)
    requires 0 < n <= |p| <= MAX_INSNS && DistinctFrom(p, n)
    requires IsLabel(p[n - 1]) ==> Placed(p, p[n - 1].k, n) == UNRESOLVED
    ensures DistinctFrom(p, n - 1)
  {
    if IsLabel(p[n - 1]) {
      FindLabelIsFirst(p, p[n - 1].k, n);
      forall j | n <= j < |p| && IsLabel(p[j]) ensures p[j].k != p[n - 1].k {
        assert p[j] != LabelAt(p[n - 1].k);
      }
    }
  }

  ghost predicate Locates(location: seq<Word>, p: Code, n: nat)
    requires n <= |p| <= MAX_INSNS
  {
    forall id: Word :: id < |location| ==> location[id] == Placed(p, id, n)
  }

  /** bpf_resolve_jumps: one backward walk builds the label locations and patches the jumps. */
  method ResolveJumps(labels: Labels, filter: array<Instr>) returns (r: Resolution)
    requires labels.Valid() && labels.Unplaced()
    modifies labels`location, filter
    ensures r == Resolve(old(filter[..]), |labels.names|)
    ensures r == Accepted ==> filter[..] == Resolved(old(filter[..]))
  {
    ghost var p := filter[..];
    ghost var count := |labels.names|;
    if filter.Length > MAX_INSNS {
      return Refused;
    }
    hide Resolve;
    NothingBehind(p, count);
    var n := filter.Length;
    while n > 0
      invariant 0 <= n <= |p| == filter.Length && labels.Valid()
      invariant forall i :: 0 <= i < n ==> filter[i] == p[i]
      invariant forall i :: n <= i < |p| ==> filter[i] == ResolvedAt(p, i)
      invariant Locates(labels.location, p, n)
      invariant Resolvable(p[n..], count)
    {
      hide Resolvable, ResolvedAt, Placed;
      var offset := n - 1;
      var instr := filter[offset];
      assert instr == p[offset];
      PlacedSteps(p, n);
      OrderedStep(p, count, n);
      ResolvedStep(p, n);
      if IsJump(instr) {
        if instr.k >= |labels.names| || labels.location[instr.k] == UNRESOLVED {
          StopsAt(p, count, offset);
          return Refused;
        }
        filter[offset] := Instr(Ja, labels.location[instr.k] - (offset + 1), 0, 0);
      } else if IsLabel(instr) {
        if instr.k >= |labels.names| {
          // The code reads labels[k] here all the same.
          StopsAt(p, count, offset);
          return OutOfTable;
        }
        if labels.location[instr.k] != UNRESOLVED {
          StopsAt(p, count, offset);
          return Refused;
        }
        labels.location := labels.location[instr.k := offset];
        filter[offset] := Instr(Ja, 0, 0, 0);
      }
      n := offset;
    }
    AllBehind(p, count);
    assert filter[..] == Resolved(p);
    r := Accepted;
  }

  lemma NothingBehind(p: Code, count: nat)
    ensures Resolvable(p[|p|..], count)
  {
  }

  lemma AllBehind(p: Code, count: nat)
    requires Resolvable(p[0..], count)
    ensures Resolve(p, count) == Accepted
  {
    assert p[0..] == p;
  }

  lemma PlacedSteps(p: Code, n: nat)
    requires 0 < n <= |p| <= MAX_INSNS
    ensures forall id: Word ::
              Placed(p, id, n - 1) == if p[n - 1] == LabelAt(id) then n - 1 else Placed(p, id, n)
  {
    forall id: Word ensures Placed(p, id, n - 1) == if p[n - 1] == LabelAt(id) then n - 1 else Placed(p, id, n) {
      PlacedStep(p, id, n);
    }
  }

  // When one more instruction is in order.
  lemma OrderedStep(p: Code, count: nat, n: nat)
    requires 0 < n <= |p| <= MAX_INSNS && Resolvable(p[n..], count)
    ensures var i := p[n - 1];
            Resolvable(p[n - 1..], count) <==>
              && (IsJump(i) ==> i.k < count && Placed(p, i.k, n) != UNRESOLVED)
              && (IsLabel(i) ==> i.k < count && Placed(p, i.k, n) == UNRESOLVED)
  {
    OrderedFrom(p, count, n);
    OrderedFrom(p, count, n - 1);
    DistinctStep(p, n);
    hide Resolvable, DistinctFrom;
    assert ResolvableAt(p, count, n - 1) <==>
             && (IsLabel(p[n - 1]) ==> p[n - 1].k < count)
             && (IsJump(p[n - 1]) ==> p[n - 1].k < count && Placed(p, p[n - 1].k, n) != UNRESOLVED);
  }

  // The patched form of an instruction, from the locations behind it.
  lemma ResolvedStep(p: Code, n: nat)
    requires 0 < n <= |p| <= MAX_INSNS
    ensures var i := p[n - 1];
            ResolvedAt(p, n - 1) ==
            if IsJump(i) then
              (if Placed(p, i.k, n) == UNRESOLVED then i
               else if Placed(p, i.k, n) >= n then Instr(Ja, Placed(p, i.k, n) - n, 0, 0) else i)
            else if IsLabel(i) then Instr(Ja, 0, 0, 0) else i
    ensures Placed(p, p[n - 1].k, n) >= n
  {
  }

  lemma DistinctStep(p: Code, n: nat)
    requires 0 < n <= |p| <= MAX_INSNS && DistinctFrom(p, n)
    ensures DistinctFrom(p, n - 1) <==> (IsLabel(p[n - 1]) ==> Placed(p, p[n - 1].k, n) == UNRESOLVED)
  {
    if IsLabel(p[n - 1]) && Placed(p, p[n - 1].k, n) != UNRESOLVED {
      var t := FindLabel(p, p[n - 1].k, n);
      FindLabelIsFirst(p, p[n - 1].k, n);
      assert IsLabel(p[t]) && p[t].k == p[n - 1].k;
    } else {
      DistinctExtends(p, n);
    }
  }

  // ----- resolution keeps the meaning -----

  // How labelled code that is a whole program ends.
  function AsProgram(x: Exit): Exit {
    match x case Halt(v) => x case _ => Broken
  }

  // q is p with its jumps patched.
  ghost predicate Patched(p: Code, q: Code) {
    |q| == |p| && forall i :: 0 <= i < |p| ==> q[i] == ResolvedAt(p, i)
  }

  // What the kernel does at a patched instruction: where it goes on, if it does.
  lemma PatchedStep(p: Code, q: Code, count: nat, pc: nat, s: State, e: Env) returns (next: nat, s': State)
    requires pc < |p| && Resolvable(p, count) && Patched(p, q)
    ensures pc < next
    ensures (Run(q, pc, s, e) == Run(q, next, s', e) && Exec(p, pc, s, e) == Exec(p, next, s', e))
            || Run(q, pc, s, e) == AsProgram(Exec(p, pc, s, e))
  {
    assert ResolvableAt(p, count, pc);
    assert q[pc] == ResolvedAt(p, pc);
    var step := Step(p[pc], s, e);
    next, s' := pc + 1, s;
    if step.Jump? {
      next, s' := FindLabel(p, step.id, pc + 1), step.s;
      assert KernelStep(q[pc], s, e) == Fwd(next - (pc + 1), s');
    } else {
      assert KernelStep(q[pc], s, e) == step;
      if step.Fwd? {
        next, s' := pc + 1 + step.n, step.s;
      }
    }
  }

  lemma {:induction false} PatchedRefines(p: Code, q: Code, count: nat, pc: nat, s: State, e: Env)
    requires Resolvable(p, count) && Patched(p, q)
    ensures Run(q, pc, s, e) == AsProgram(Exec(p, pc, s, e))
    decreases |p| - pc
  {
    if pc < |p| {
      var next, s' := PatchedStep(p, q, count, pc, s, e);
      PatchedRefines(p, q, count, next, s', e);
    }
  }

  /** The patched program and the labelled one agree from every position, in every state and
      on every input or path. */
  lemma ResolutionRefines(p: Code, count: nat, pc: nat, s: State, e: Env)
    requires Resolvable(p, count)
    ensures Run(Resolved(p), pc, s, e) == AsProgram(Exec(p, pc, s, e))
  {
    PatchedRefines(p, Resolved(p), count, pc, s, e);
  }

  /** Each jump of accepted code lands on the one place where its label stands, after it. */
  lemma JumpsLandOnTheirLabel(p: Code, count: nat, i: nat)
    requires Resolvable(p, count) && i < |p| && IsJump(p[i])
    ensures var j := Resolved(p)[i];
            && j.code == Ja && i + 1 + j.k < |p|
            && p[i + 1 + j.k] == LabelAt(p[i].k)
            && forall t :: 0 <= t < |p| && t != i + 1 + j.k ==> p[t] != LabelAt(p[i].k)
  {
    assert ResolvableAt(p, count, i);
    var t := FindLabel(p, p[i].k, i + 1);
    FindLabelIsFirst(p, p[i].k, i + 1);
    assert Resolved(p)[i] == ResolvedAt(p, i);
    forall u | 0 <= u < |p| && u != t ensures p[u] != LabelAt(p[i].k) {
      assert IsLabel(p[t]) && p[t].k == p[i].k;
    }
  }
}
