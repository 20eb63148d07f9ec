/** libminijail.c: moving the preserved file descriptors of a child process into place. The
    requested moves happen at once; the code performs them one dup2 at a time, after moving
    out of the way every source that an earlier move would overwrite. */
module FdRemap {

  type File = nat

  /** An open descriptor: the file it refers to, and FD_CLOEXEC. */
  datatype Desc = Desc(file: File, cloexec: bool)

  type Fds = map<int, Desc>

  datatype Mapping = Mapping(parent: int, child: int)

  // die() ends the process; Failed is a -1 return.
  datatype Outcome = Fine | Failed | Died

  // fd is the target of one of the first n mappings.
  predicate IsChild(ms: seq<Mapping>, fd: int, n: nat) {
    exists i :: 0 <= i < n && i < |ms| && ms[i].child == fd
  }

  predicate IsParent(ms: seq<Mapping>, fd: int) {
    exists i :: 0 <= i < |ms| && ms[i].parent == fd
  }

  // The descriptors that can serve as temporaries.
  function Free(ms: seq<Mapping>, fds: Fds): set<int> {
    set x: int | 0 <= x <= 1023 && x !in fds && !IsChild(ms, x, |ms|)
  }

  // Mapping k needs one: its source is an earlier target and its own target is taken.
  predicate NeedsTemporary(ms: seq<Mapping>, fds: Fds, k: nat)
    requires k < |ms|
  {
    IsChild(ms, ms[k].parent, k) && (ms[k].child == -1 || ms[k].child in fds)
  }

  /** How many temporaries the first n mappings take, and the first n pipes. */
  function Temporaries(ms: seq<Mapping>, fds: Fds, n: nat): nat
    requires n <= |ms|
  {
    if n == 0 then 0 else Temporaries(ms, fds, n - 1) + if NeedsTemporary(ms, fds, n - 1) then 1 else 0
  }

  function PipeTemporaries(ms: seq<Mapping>, ps: seq<int>, n: nat): nat
    requires n <= |ps|
  {
    if n == 0 then 0
    else PipeTemporaries(ms, ps, n - 1) + if ps[n - 1] != -1 && IsChild(ms, ps[n - 1], |ms|) then 1 else 0
  }

  predicate ChildrenBelow(ms: seq<Mapping>, limit: int) {
    forall k :: 0 <= k < |ms| ==> 0 <= ms[k].child < limit
  }

  predicate DistinctChildren(ms: seq<Mapping>) {
    forall i, j :: 0 <= i < j < |ms| ==> ms[i].child != ms[j].child
  }

  // The table after dup2(from, to).
  function Duped(fds: Fds, from: int, to: int): Fds
    requires from in fds
  {
    if from == to then fds else fds[to := Desc(fds[from].file, false)]
  }

  class Launch {
    var fds: Fds
    const limit: int          // descriptors are below this number
    var preserved: seq<Mapping>
    var pipes: seq<int>       // pipe descriptors and elf_fd, -1 when unused

    constructor (fds: Fds, limit: int, preserved: seq<Mapping>, pipes: seq<int>)
      ensures this.fds == fds && this.limit == limit && this.preserved == preserved && this.pipes == pipes
    {
      this.fds, this.limit, this.preserved, this.pipes := fds, limit, preserved, pipes;
    }

    // dup2(2): fails on a closed source or a target out of range.
    method Dup2(from: int, to: int) returns (ok: bool)
      modifies `fds
      ensures ok <==> from in old(fds) && 0 <= to < limit
      ensures fds == if ok then Duped(old(fds), from, to) else old(fds)
    {
      ok := from in fds && 0 <= to < limit;
      if ok {
        fds := Duped(fds, from, to);
      }
    }

    method IsPreservedChildFd(fd: int, maxIndex: nat) returns (found: bool)
      ensures found <==> IsChild(preserved, fd, maxIndex)
    {
      var n := if maxIndex < |preserved| then maxIndex else |preserved|;
      var i := 0;
      while i < n
        invariant 0 <= i <= n
        invariant forall j :: 0 <= j < i ==> preserved[j].child != fd
      {
        if preserved[i].child == fd {
          return true;
        }
        i := i + 1;
      }
      return false;
    }

    // The highest descriptor up to 1023 that is neither open nor a target; -1 when there is none.
    method FindUnused() returns (fd: int)
      ensures -1 <= fd <= 1023
      ensures fd >= 0 ==> fd !in fds && !IsChild(preserved, fd, |preserved|)
      ensures forall x :: fd < x <= 1023 ==> x in fds || IsChild(preserved, x, |preserved|)
    {
      fd := 1023;
      var child := IsPreservedChildFd(fd, |preserved|);
      while child || fd in fds
        invariant 0 <= fd <= 1023
        invariant child <==> IsChild(preserved, fd, |preserved|)
        invariant forall x :: fd < x <= 1023 ==> x in fds || IsChild(preserved, x, |preserved|)
        decreases fd
      {
        fd := fd - 1;
        if fd < 0 {
          return;
        }
        child := IsPreservedChildFd(fd, |preserved|);
      }
    }

    /** ensure_no_fd_conflict: a source among the first targets moves to its own target, when
        that is not open, or else to an unused descriptor. Nothing open is overwritten. */
    method EnsureNoConflict(child: int, parent: int, maxIndex: nat) returns (r: Outcome, moved: int)
      modifies `fds
      ensures !IsChild(preserved, parent, maxIndex) ==> r == Fine && moved == parent && fds == old(fds)
      ensures IsChild(preserved, parent, maxIndex) && r == Fine ==>
                && parent in old(fds) && moved !in old(fds)
                && fds == old(fds)[moved := Desc(old(fds)[parent].file, false)]
                && (if child == -1 || child in old(fds) then moved in Free(preserved, old(fds)) else moved == child)
      ensures r == Died ==>
                && fds == old(fds) && Free(preserved, fds) == {}
                && IsChild(preserved, parent, maxIndex) && (child == -1 || child in fds)
      ensures r == Failed ==> parent !in old(fds) || limit <= 1023 || (child != -1 && !(0 <= child < limit))
    {
      moved := parent;
      var conflict := IsPreservedChildFd(parent, maxIndex);
      if !conflict {
        return Fine, moved;
      }
      var fd := child;
      if fd == -1 || fd in fds {
        fd := FindUnused();
        if fd < 0 {
          return Died, moved;
        }
      }
      var ok := Dup2(parent, fd);
      if !ok {
        return Failed, moved;
      }
      return Fine, fd;
    }
  
    /** prepare_preserved_fds: afterwards no source is the target of an earlier move, and each
        source still refers to the file it named. */
    method Prepare() returns (r: Outcome)
      modifies `fds, `preserved
      ensures r == Fine ==>
                && SameChildren(old(preserved), preserved) && DistinctChildren(preserved)
                && Keeps(old(fds), fds)
                && forall k :: 0 <= k < |preserved| ==> Settled(old(preserved), preserved, old(fds), fds, k)
      ensures r == Fine ==> NewAreSources(preserved, |preserved|, old(fds), fds)
      ensures r == Fine ==>
                |Free(preserved, fds)| + Temporaries(old(preserved), old(fds), |preserved|) ==
                |Free(preserved, old(fds))|
      ensures r == Died ==>
                || !DistinctChildren(old(preserved))
                || |Free(old(preserved), old(fds))| < Temporaries(old(preserved), old(fds), |old(preserved)|)
      ensures r == Failed ==>
                || !SourcesOpen(old(preserved), old(fds)) || limit <= 1023
                || !ChildrenBelow(old(preserved), limit)
    {
      ghost var ms := preserved;
      hide Prepared;
      NothingPrepared(ms, fds);
      var i := 0;
      while i < |preserved|
        invariant 0 <= i <= |preserved| == |ms| && Prepared(ms, preserved, old(fds), fds, i)
      {
        r := PrepareOne(i, ms, old(fds));
        if r != Fine {
          TemporariesGrow(ms, old(fds), i + 1);
          return;
        }
        i := i + 1;
      }
      AllPrepared(ms, preserved, old(fds), fds);
      r := Fine;
    }

    // The body of the loop.
    method PrepareOne(i: nat, ghost ms: seq<Mapping>, ghost before: Fds) returns (r: Outcome)
      requires i < |ms| && Prepared(ms, preserved, before, fds, i)
      modifies `fds, `preserved
      ensures |preserved| == |ms|
      ensures r == Fine ==> Prepared(ms, preserved, before, fds, i + 1)
      ensures r == Died ==> !DistinctChildren(ms) || |Free(ms, before)| < Temporaries(ms, before, i + 1)
      ensures r == Failed ==> !SourcesOpen(ms, before) || limit <= 1023 || !ChildrenBelow(ms, limit)
    {
      hide Free;
      var child := preserved[i].child;
      var dup := IsPreservedChildFd(child, i);
      ChildAgrees(ms, preserved);
      if dup {
        return Died;
      }
      ghost var mid, prev := fds, preserved;
      var moved;
      r, moved := EnsureNoConflict(child, preserved[i].parent, i);
      FreeAgrees(ms, preserved, mid);
      if r != Fine {
        return;
      }
      TakeOne(ms, i, before, mid, fds, moved);
      preserved := preserved[i := Mapping(moved, child)];
      FreeIsNoTarget(ms, mid);
      PreparedNext(ms, prev, preserved, before, mid, fds, i, moved);
    }

    /** avoid_pipe_conflicts, and the same for elf_fd: descriptors the launcher needs leave the
        targets' numbers. */
    method AvoidPipes() returns (r: Outcome)
      modifies `fds, `pipes
      ensures r == Fine ==>
                && |pipes| == |old(pipes)| && Keeps(old(fds), fds)
                && (forall i :: 0 <= i < |pipes| ==> PipeSettled(old(pipes), pipes, preserved, old(fds), fds, i))
                && NewArePipes(pipes, |pipes|, old(fds), fds)
      ensures r == Fine ==> PipeTemporaries(preserved, old(pipes), |pipes|) <= |Free(preserved, old(fds))|
      ensures r == Died ==>
                |Free(preserved, old(fds))| < PipeTemporaries(preserved, old(pipes), |old(pipes)|)
      ensures r == Failed ==> limit <= 1023 || !PipesOpen(old(pipes), old(fds))
    {
      ghost var ps := pipes;
      var i := 0;
      while i < |pipes|
        invariant 0 <= i <= |pipes| == |ps| && Keeps(old(fds), fds)
        invariant forall k :: i <= k < |ps| ==> pipes[k] == ps[k]
        invariant NewArePipes(pipes, i, old(fds), fds)
        invariant forall k :: 0 <= k < i ==> PipeSettled(ps, pipes, preserved, old(fds), fds, k)
        invariant |Free(preserved, fds)| + PipeTemporaries(preserved, ps, i) == |Free(preserved, old(fds))|
      {
        ghost var mid, prev := fds, pipes;
        if pipes[i] != -1 {
          var moved;
          r, moved := EnsureNoConflict(-1, pipes[i], |preserved|);
          if r != Fine {
            if r == Died {
              PipeTemporariesGrow(preserved, ps, i + 1);
            }
            return;
          }
          if fds != mid {
            FreeLosesOne(preserved, mid, fds, moved);
          }
          pipes := pipes[i := moved];
        }
        assert Keeps(mid, fds);
        forall k | 0 <= k < i ensures PipeSettled(ps, pipes, preserved, old(fds), fds, k) {
          PipeKept(ps, prev, pipes, preserved, old(fds), mid, fds, k);
        }
        assert PipeSettled(ps, pipes, preserved, old(fds), fds, i);
        assert pipes[..i + 1] == prev[..i] + [pipes[i]];
        i := i + 1;
      }
      r := Fine;
    }

    // The dup2 calls of redirect_fds.
    method Redirect() returns (r: Outcome)
      requires DistinctChildren(preserved)
      requires forall k :: 0 <= k < |preserved| ==> !IsChild(preserved, preserved[k].parent, k)
      modifies `fds
      ensures r == Fine ==> Redirected(preserved, |preserved|, old(fds), fds)
      ensures r != Died
      ensures r == Failed ==> !SourcesOpen(preserved, old(fds)) || !ChildrenBelow(preserved, limit)
    {
      var i := 0;
      while i < |preserved|
        invariant 0 <= i <= |preserved|
        invariant Redirected(preserved, i, old(fds), fds)
      {
        ghost var mid := fds;
        var m := preserved[i];
        if m.parent == m.child {
          if m.child in fds && fds[m.child].cloexec {
            fds := fds[m.child := Desc(fds[m.child].file, false)];
          }
        } else {
          var ok := Dup2(m.parent, m.child);
          if !ok {
            return Failed;
          }
        }
        RedirectStep(preserved, i, old(fds), mid, fds);
        i := i + 1;
      }
      r := Fine;
    }

    // The close calls of redirect_fds.
    method CloseParents()
      modifies `fds
      ensures Closed(preserved, |preserved|, old(fds), fds)
    {
      var i := 0;
      while i < |preserved|
        invariant 0 <= i <= |preserved|
        invariant Closed(preserved, i, old(fds), fds)
      {
        ghost var mid := fds;
        var child := IsPreservedChildFd(preserved[i].parent, |preserved|);
        if !child {
          fds := fds - {preserved[i].parent};
        }
        CloseStep(preserved, i, old(fds), mid, fds);
        i := i + 1;
      }
    }

    /** The whole remapping, as the child process performs it. Every target ends up with the file
        its original source referred to, whatever cycles, overlaps and shared sources the
        mappings contain. When all sources were open, the rest of the table is the old one without
        the sources, plus the descriptors to which pipes had to move, and a pipe is lost exactly
        when its number is a source and no target. A well-posed request succeeds exactly when there
        are as many free descriptors as temporaries to be taken, and dies otherwise. */
    method Remap() returns (r: Outcome)
      modifies this
      ensures r == Fine ==> MovedInParallel(old(preserved), old(fds), fds)
      ensures r == Fine ==> PipesMoveForTargets(old(preserved), old(pipes), pipes)
      ensures r == Fine && SourcesOpen(old(preserved), old(fds)) ==>
                && RestAsExpected(old(preserved), old(fds), fds, pipes)
                && PipesSurvive(old(preserved), old(fds), fds, old(pipes), pipes)
      ensures WellPosed(old(preserved), old(pipes), old(fds), limit) ==>
                r == if Enough(old(preserved), old(pipes), old(fds)) then Fine else Died
      ensures r == Died ==>
                !DistinctChildren(old(preserved)) || !Enough(old(preserved), old(pipes), old(fds))
      ensures r == Failed ==>
                || !SourcesOpen(old(preserved), old(fds)) || !PipesOpen(old(pipes), old(fds))
                || !ChildrenBelow(old(preserved), limit) || limit <= 1023
    {
      ghost var ms0, fds0, ps0 := preserved, fds, pipes;
      r := Prepare();
      if r != Fine {
        return;
      }
      ghost var ms1, fds1 := preserved, fds;
      ChildAgrees(ms0, ms1);
      FreeAgrees(ms0, ms1, fds0);
      PipesAgree(ms0, ms1, ps0, |ps0|);
      PipesStillOpen(ps0, fds0, fds1);
      r := AvoidPipes();
      if r != Fine {
        return;
      }
      ghost var fds2 := fds;
      PipesOnlyMoved(ms0, ms1, ps0, pipes, fds1, fds2);
      hide PipesMoveForTargets;
      StillOpen(ms0, ms1, fds0, fds1, fds2);
      forall k | 0 <= k < |preserved| ensures !IsChild(preserved, preserved[k].parent, k) {
        assert Settled(ms0, ms1, fds0, fds1, k);
      }
      r := Redirect();
      if r != Fine {
        return;
      }
      ghost var fds3 := fds;
      CloseParents();
      ghost var run := Phases(ms0, ms1, fds0, fds1, fds2, fds3, fds, ps0, pipes);
      TargetsRight(run);
      if SourcesOpen(ms0, fds0) {
        RestRight(run);
        PipesRight(run);
      }
    }
  }

  // ----- what the remapping needs -----

  /** Sources and pipes are open, the targets are distinct, and all numbers lie below the limit. */
  predicate WellPosed(ms: seq<Mapping>, ps: seq<int>, fds: Fds, limit: int) {
    && SourcesOpen(ms, fds) && PipesOpen(ps, fds)
    && DistinctChildren(ms) && ChildrenBelow(ms, limit) && limit > 1023
  }

  predicate Enough(ms: seq<Mapping>, ps: seq<int>, fds: Fds) {
    Temporaries(ms, fds, |ms|) + PipeTemporaries(ms, ps, |ps|) <= |Free(ms, fds)|
  }

  // Descriptors opened so far are no targets, or targets of mappings already prepared.
  predicate NewTargetsAre(ms: seq<Mapping>, n: nat, before: Fds, after: Fds) {
    forall f :: f in after && f !in before && IsChild(ms, f, |ms|) ==> IsChild(ms, f, n)
  }

  lemma FreeAgrees(ms: seq<Mapping>, ms': seq<Mapping>, fds: Fds)
    requires SameChildren(ms, ms')
    ensures Free(ms', fds) == Free(ms, fds)
  {
    ChildAgrees(ms, ms');
  }

  lemma FreeLosesOne(ms: seq<Mapping>, before: Fds, after: Fds, fd: int)
    requires fd in Free(ms, before) && after.Keys == before.Keys + {fd}
    ensures |Free(ms, after)| + 1 == |Free(ms, before)|
  {
    hide IsChild;
    assert Free(ms, after) == Free(ms, before) - {fd};
  }

  lemma FreeLosesNone(ms: seq<Mapping>, before: Fds, after: Fds, fd: int)
    requires after.Keys == before.Keys + {fd} && (fd in before || IsChild(ms, fd, |ms|))
    ensures Free(ms, after) == Free(ms, before)
  {
    hide IsChild;
  }

  lemma {:induction false} TemporariesGrow(ms: seq<Mapping>, fds: Fds, n: nat)
    requires n <= |ms|
    ensures Temporaries(ms, fds, n) <= Temporaries(ms, fds, |ms|)
    decreases |ms| - n
  {
    if n < |ms| {
      TemporariesGrow(ms, fds, n + 1);
    }
  }

  lemma {:induction false} PipeTemporariesGrow(ms: seq<Mapping>, ps: seq<int>, n: nat)
    requires n <= |ps|
    ensures PipeTemporaries(ms, ps, n) <= PipeTemporaries(ms, ps, |ps|)
    decreases |ps| - n
  {
    if n < |ps| {
      PipeTemporariesGrow(ms, ps, n + 1);
    }
  }

  lemma {:induction false} PipesAgree(ms: seq<Mapping>, ms': seq<Mapping>, ps: seq<int>, n: nat)
    requires SameChildren(ms, ms') && n <= |ps|
    ensures PipeTemporaries(ms', ps, n) == PipeTemporaries(ms, ps, n)
  {
    if n > 0 {
      PipesAgree(ms, ms', ps, n - 1);
      ChildAgrees(ms, ms');
    }
  }

  lemma PipesStillOpen(ps: seq<int>, before: Fds, after: Fds)
    requires Keeps(before, after)
    ensures PipesOpen(ps, before) ==> PipesOpen(ps, after)
  {
  }

  /** The state of prepare_preserved_fds after i mappings: their sources are settled, nothing open
      was overwritten, and the temporaries they needed are taken. */
  predicate Prepared(ms: seq<Mapping>, now: seq<Mapping>, before: Fds, after: Fds, i: nat) {
    && i <= |ms| && SameChildren(ms, now)
    && (forall j, k :: 0 <= j < k < i ==> ms[j].child != ms[k].child)
    && (forall k :: i <= k < |ms| ==> now[k] == ms[k])
    && Keeps(before, after) && NewAreSources(now, i, before, after)
    && (forall k :: 0 <= k < i ==> Settled(ms, now, before, after, k))
    && NewTargetsAre(ms, i, before, after)
    && |Free(ms, after)| + Temporaries(ms, before, i) == |Free(ms, before)|
  }

  lemma NothingPrepared(ms: seq<Mapping>, fds: Fds)
    ensures Prepared(ms, ms, fds, fds, 0)
  {
  }

  lemma AllPrepared(ms: seq<Mapping>, now: seq<Mapping>, before: Fds, after: Fds)
    requires Prepared(ms, now, before, after, |ms|)
    ensures SameChildren(ms, now) && DistinctChildren(now) && Keeps(before, after)
    ensures forall k :: 0 <= k < |now| ==> Settled(ms, now, before, after, k)
    ensures NewAreSources(now, |now|, before, after)
    ensures |Free(now, after)| + Temporaries(ms, before, |now|) == |Free(now, before)|
  {
    FreeAgrees(ms, now, before);
    FreeAgrees(ms, now, after);
    hide Free;
  }

  lemma FreeIsNoTarget(ms: seq<Mapping>, fds: Fds)
    ensures forall x :: x in Free(ms, fds) ==> x !in fds && !IsChild(ms, x, |ms|)
  {
  }

  lemma PreparedNext(ms: seq<Mapping>, prev: seq<Mapping>, now: seq<Mapping>, before: Fds, mid: Fds, after: Fds,
                     i: nat, moved: int)
    requires i < |ms| && Prepared(ms, prev, before, mid, i) && now == prev[i := Mapping(moved, ms[i].child)]
    requires !IsChild(ms, ms[i].child, i)
    requires NewTargetsAre(ms, i + 1, before, after)
    requires |Free(ms, after)| + Temporaries(ms, before, i + 1) == |Free(ms, before)|
    requires if !IsChild(ms, ms[i].parent, i) then moved == ms[i].parent && after == mid
             else
               && ms[i].parent in mid && moved !in mid
               && after == mid[moved := Desc(mid[ms[i].parent].file, false)]
               && (moved == ms[i].child || !IsChild(ms, moved, |ms|))
    ensures Prepared(ms, now, before, after, i + 1)
  {
    hide Free, Temporaries, NewTargetsAre;
    assert Keeps(mid, after);
    NewStaySources(prev, now, i, before, mid);
    ChildMonotone(ms, moved, i);
    assert Settled(ms, now, before, after, i);
    hide IsChild;
    forall k | 0 <= k < i ensures Settled(ms, now, before, after, k) {
      SettledKept(ms, prev, now, before, mid, after, k);
    }
    hide Settled;
    DistinctNext(ms, i);
  }

  lemma DistinctNext(ms: seq<Mapping>, i: nat)
    requires i < |ms| && !IsChild(ms, ms[i].child, i)
    requires forall j, k :: 0 <= j < k < i ==> ms[j].child != ms[k].child
    ensures forall j, k :: 0 <= j < k < i + 1 ==> ms[j].child != ms[k].child
  {
  }

  // One mapping prepared: a temporary less if it needed one, the others kept.
  lemma TakeOne(ms: seq<Mapping>, i: nat, before: Fds, mid: Fds, after: Fds, moved: int)
    requires i < |ms| && Keeps(before, mid) && NewTargetsAre(ms, i, before, mid) && !IsChild(ms, ms[i].child, i)
    requires |Free(ms, mid)| + Temporaries(ms, before, i) == |Free(ms, before)|
    requires if !IsChild(ms, ms[i].parent, i) then after == mid
             else after.Keys == mid.Keys + {moved} &&
                  if ms[i].child == -1 || ms[i].child in mid then moved in Free(ms, mid) else moved == ms[i].child
    ensures NewTargetsAre(ms, i + 1, before, after)
    ensures |Free(ms, after)| + Temporaries(ms, before, i + 1) == |Free(ms, before)|
  {
    var child := ms[i].child;
    assert IsChild(ms, child, i + 1) && IsChild(ms, child, |ms|);
    assert child in mid <==> child in before;
    ChildLater(ms, i);
    if IsChild(ms, ms[i].parent, i) {
      if child == -1 || child in mid {
        FreeLosesOne(ms, mid, after, moved);
      } else {
        FreeLosesNone(ms, mid, after, moved);
      }
    }
    hide IsChild;
  }

  lemma ChildLater(ms: seq<Mapping>, i: nat)
    ensures forall f :: IsChild(ms, f, i) ==> IsChild(ms, f, i + 1)
  {
  }

  // ----- what the remapping achieves -----

  predicate SourcesOpen(ms: seq<Mapping>, fds: Fds) {
    forall k :: 0 <= k < |ms| ==> ms[k].parent in fds
  }

  predicate PipesOpen(ps: seq<int>, fds: Fds) {
    forall i :: 0 <= i < |ps| && ps[i] != -1 ==> ps[i] in fds
  }

  lemma StillOpen(ms0: seq<Mapping>, ms1: seq<Mapping>, fds0: Fds, fds1: Fds, fds2: Fds)
    requires SameChildren(ms0, ms1) && Keeps(fds1, fds2)
    requires forall k :: 0 <= k < |ms1| ==> Settled(ms0, ms1, fds0, fds1, k)
    ensures SourcesOpen(ms0, fds0) ==> SourcesOpen(ms1, fds2)
  {
    if SourcesOpen(ms0, fds0) {
      forall k | 0 <= k < |ms1| ensures ms1[k].parent in fds2 {
        assert Settled(ms0, ms1, fds0, fds1, k);
      }
    }
  }

  /** Each target refers to the file its source referred to before, and survives exec. */
  predicate MovedInParallel(ms: seq<Mapping>, before: Fds, after: Fds) {
    forall k :: 0 <= k < |ms| && ms[k].parent in before ==>
      ms[k].child in after && after[ms[k].child] == Desc(before[ms[k].parent].file, false)
  }

  /** A descriptor that is no target is open afterwards when it was open and no source, or when
      a pipe was moved to it; in the first case it is unchanged. */
  ghost predicate RestAsExpected(ms: seq<Mapping>, before: Fds, after: Fds, pipes: seq<int>) {
    forall f :: !IsChild(ms, f, |ms|) ==>
      && (f in before ==> (f in after <==> !IsParent(ms, f)) && (f in after ==> after[f] == before[f]))
      && (f !in before && f in after ==> f in pipes)
  }

  lemma PipesOnlyMoved(ms: seq<Mapping>, ms': seq<Mapping>, ps: seq<int>, ps': seq<int>, before: Fds, after: Fds)
    requires SameChildren(ms, ms') && |ps'| == |ps|
    requires forall i :: 0 <= i < |ps| ==> PipeSettled(ps, ps', ms', before, after, i)
    ensures PipesMoveForTargets(ms, ps, ps')
  {
    ChildAgrees(ms, ms');
    forall i | 0 <= i < |ps| && ps'[i] != ps[i] ensures IsChild(ms, ps[i], |ms|) {
      assert PipeSettled(ps, ps', ms', before, after, i);
    }
  }

  // A pipe keeps its number unless that is a target.
  predicate PipesMoveForTargets(ms: seq<Mapping>, ps: seq<int>, ps': seq<int>) {
    |ps'| == |ps| && forall i :: 0 <= i < |ps| && ps'[i] != ps[i] ==> IsChild(ms, ps[i], |ms|)
  }

  /** A pipe still refers to its file exactly when its number was a target, so that it was moved,
      or no source. */
  predicate PipesSurvive(ms: seq<Mapping>, before: Fds, after: Fds, ps: seq<int>, ps': seq<int>)
    requires |ps'| == |ps|
  {
    forall i :: 0 <= i < |ps| && ps[i] != -1 && ps[i] in before ==>
      ((ps'[i] in after && after[ps'[i]].file == before[ps[i]].file) <==>
       (IsChild(ms, ps[i], |ms|) || !IsParent(ms, ps[i])))
  }

  /** The tables and mappings between the phases of one run: at the start, prepared, pipes moved,
      redirected, closed. */
  datatype Run = Phases(ms0: seq<Mapping>, ms1: seq<Mapping>, fds0: Fds, fds1: Fds, fds2: Fds, fds3: Fds, fds4: Fds,
                        ps0: seq<int>, ps1: seq<int>)
  {
    ghost predicate Happened() {
      && SameChildren(ms0, ms1) && DistinctChildren(ms1) && Keeps(fds0, fds1)
      && (forall k :: 0 <= k < |ms1| ==> Settled(ms0, ms1, fds0, fds1, k))
      && NewAreSources(ms1, |ms1|, fds0, fds1)
      && |ps1| == |ps0| && Keeps(fds1, fds2)
      && (forall i :: 0 <= i < |ps1| ==> PipeSettled(ps0, ps1, ms1, fds1, fds2, i))
      && NewArePipes(ps1, |ps1|, fds1, fds2)
      && Redirected(ms1, |ms1|, fds2, fds3)
      && Closed(ms1, |ms1|, fds3, fds4)
    }
  }

  lemma TargetsRight(t: Run)
    requires t.Happened()
    ensures MovedInParallel(t.ms0, t.fds0, t.fds4)
  {
    forall k | 0 <= k < |t.ms0| && t.ms0[k].parent in t.fds0
      ensures t.ms0[k].child in t.fds4 && t.fds4[t.ms0[k].child] == Desc(t.fds0[t.ms0[k].parent].file, false)
    {
      assert Settled(t.ms0, t.ms1, t.fds0, t.fds1, k);
      assert IsChild(t.ms1, t.ms1[k].child, |t.ms1|);
    }
  }

  // A descriptor that was open and is no target is a source afterwards iff it was one.
  lemma SourcesKept(t: Run, f: int)
    requires t.Happened() && f in t.fds0 && !IsChild(t.ms0, f, |t.ms0|)
    ensures IsSource(t.ms1, f, |t.ms1|) <==> IsParent(t.ms0, f)
  {
    if k :| 0 <= k < |t.ms1| && t.ms1[k].parent == f {
      assert Settled(t.ms0, t.ms1, t.fds0, t.fds1, k);
      assert t.ms0[k].parent == f;
    }
    if k :| 0 <= k < |t.ms0| && t.ms0[k].parent == f {
      assert Settled(t.ms0, t.ms1, t.fds0, t.fds1, k);
      ChildMonotone(t.ms0, f, k);
      assert t.ms1[k].parent == f;
    }
  }

  // With all sources open, a descriptor opened for a pipe is no source.
  lemma PipeIsNoSource(t: Run, f: int)
    requires t.Happened() && SourcesOpen(t.ms0, t.fds0) && f !in t.fds1
    ensures !IsSource(t.ms1, f, |t.ms1|)
  {
    forall k | 0 <= k < |t.ms1| ensures t.ms1[k].parent != f {
      assert Settled(t.ms0, t.ms1, t.fds0, t.fds1, k);
    }
  }

  lemma RestRight(t: Run)
    requires t.Happened() && SourcesOpen(t.ms0, t.fds0)
    ensures RestAsExpected(t.ms0, t.fds0, t.fds4, t.ps1)
  {
    ChildAgrees(t.ms0, t.ms1);
    forall f | !IsChild(t.ms0, f, |t.ms0|)
      ensures f in t.fds0 ==> (f in t.fds4 <==> !IsParent(t.ms0, f)) && (f in t.fds4 ==> t.fds4[f] == t.fds0[f])
      ensures f !in t.fds0 && f in t.fds4 ==> f in t.ps1
    {
      assert f in t.fds4 <==> f in t.fds2 && !IsSource(t.ms1, f, |t.ms1|);
      if f in t.fds0 {
        SourcesKept(t, f);
      } else if f in t.fds1 {
        assert IsSource(t.ms1, f, |t.ms1|);
      } else if f in t.fds2 {
        assert f in t.ps1[..|t.ps1|];
      }
    }
  }

  lemma PipesRight(t: Run)
    requires t.Happened() && SourcesOpen(t.ms0, t.fds0)
    ensures PipesSurvive(t.ms0, t.fds0, t.fds4, t.ps0, t.ps1)
  {
    ChildAgrees(t.ms0, t.ms1);
    forall i | 0 <= i < |t.ps0| && t.ps0[i] != -1 && t.ps0[i] in t.fds0
      ensures (t.ps1[i] in t.fds4 && t.fds4[t.ps1[i]].file == t.fds0[t.ps0[i]].file) <==>
              (IsChild(t.ms0, t.ps0[i], |t.ms0|) || !IsParent(t.ms0, t.ps0[i]))
    {
      var p, p' := t.ps0[i], t.ps1[i];
      assert PipeSettled(t.ps0, t.ps1, t.ms1, t.fds1, t.fds2, i);
      assert p' in t.fds4 <==> p' in t.fds2 && !IsSource(t.ms1, p', |t.ms1|);
      if p' == p {
        SourcesKept(t, p);
      } else {
        PipeIsNoSource(t, p');
      }
    }
  }

  predicate SameChildren(ms: seq<Mapping>, ms': seq<Mapping>) {
    |ms'| == |ms| && forall k :: 0 <= k < |ms| ==> ms'[k].child == ms[k].child
  }

  // Every open descriptor stays as it was.
  predicate Keeps(before: Fds, after: Fds) {
    forall f :: f in before ==> f in after && after[f] == before[f]
  }

  /** Mapping k is ready: its source, moved or not, is not an earlier target and refers to the
      original source's file; a moved source was an earlier target and now is a descriptor that
      was not open. */
  predicate Settled(ms: seq<Mapping>, ms': seq<Mapping>, before: Fds, after: Fds, k: nat)
    requires k < |ms| == |ms'|
  {
    var p, p' := ms[k].parent, ms'[k].parent;
    && !IsChild(ms, p', k)
    && (p in before ==> p' in after && after[p'].file == before[p].file)
    && (p' != p ==> p' !in before && IsChild(ms, p, k) && (p' == ms[k].child || !IsChild(ms, p', |ms|)))
  }

  // fd is the source of one of the first n mappings.
  predicate IsSource(ms: seq<Mapping>, fd: int, n: nat) {
    exists i :: 0 <= i < n && i < |ms| && ms[i].parent == fd
  }

  // Descriptors opened by preparing are sources now.
  predicate NewAreSources(ms: seq<Mapping>, n: nat, before: Fds, after: Fds) {
    forall f :: f in after && f !in before ==> IsSource(ms, f, n)
  }

  lemma SettledKept(ms: seq<Mapping>, ms1: seq<Mapping>, ms2: seq<Mapping>, before: Fds, mid: Fds, after: Fds, k: nat)
    requires k < |ms| == |ms1| == |ms2| && ms2[k] == ms1[k]
    requires Settled(ms, ms1, before, mid, k) && Keeps(mid, after)
    ensures Settled(ms, ms2, before, after, k)
  {
  }

  lemma NewStaySources(ms1: seq<Mapping>, ms2: seq<Mapping>, i: nat, before: Fds, mid: Fds)
    requires i < |ms1| == |ms2| && forall k :: 0 <= k < i ==> ms2[k] == ms1[k]
    requires NewAreSources(ms1, i, before, mid)
    ensures NewAreSources(ms2, i + 1, before, mid) && IsSource(ms2, ms2[i].parent, i + 1)
  {
    forall f | f in mid && f !in before ensures IsSource(ms2, f, i + 1) {
      var k :| 0 <= k < i && k < |ms1| && ms1[k].parent == f;
      assert ms2[k].parent == f;
    }
  }

  lemma ChildMonotone(ms: seq<Mapping>, f: int, n: nat)
    ensures IsChild(ms, f, n) ==> IsChild(ms, f, |ms|)
  {
  }

  lemma ChildAgrees(ms: seq<Mapping>, ms': seq<Mapping>)
    requires SameChildren(ms, ms')
    ensures forall f, n: nat :: IsChild(ms, f, n) <==> IsChild(ms', f, n)
  {
    forall f, n: nat ensures IsChild(ms, f, n) <==> IsChild(ms', f, n) {
      if i :| 0 <= i < n && i < |ms| && ms[i].child == f {
        assert ms'[i].child == f;
      }
      if i :| 0 <= i < n && i < |ms'| && ms'[i].child == f {
        assert ms[i].child == f;
      }
    }
  }

  /** Pipe i is ready: it is no target, and refers to the file it did. */
  predicate PipeSettled(ps: seq<int>, ps': seq<int>, ms: seq<Mapping>, before: Fds, after: Fds, i: nat)
    requires i < |ps| == |ps'|
  {
    var p, p' := ps[i], ps'[i];
    && (p == -1 ==> p' == -1)
    && (p != -1 ==>
          && !IsChild(ms, p', |ms|)
          && (p in before ==> p' in after && after[p'].file == before[p].file)
          && (p' != p ==> p' !in before && IsChild(ms, p, |ms|)))
  }

  predicate NewArePipes(ps: seq<int>, n: nat, before: Fds, after: Fds)
    requires n <= |ps|
  {
    forall f :: f in after && f !in before ==> f in ps[..n]
  }

  lemma PipeKept(ps: seq<int>, ps1: seq<int>, ps2: seq<int>, ms: seq<Mapping>, before: Fds, mid: Fds, after: Fds,
                 k: nat)
    requires k < |ps| == |ps1| == |ps2| && ps2[k] == ps1[k]
    requires PipeSettled(ps, ps1, ms, before, mid, k) && Keeps(mid, after)
    ensures PipeSettled(ps, ps2, ms, before, after, k)
  {
  }

  /** The first n moves have been made: their targets have their sources' files and survive
      exec, and nothing else has changed. */
  ghost predicate Redirected(ms: seq<Mapping>, n: nat, base: Fds, out: Fds) {
    && (forall k :: 0 <= k < n && k < |ms| && ms[k].parent in base ==>
          ms[k].child in out && out[ms[k].child] == Desc(base[ms[k].parent].file, false))
    && forall f :: !IsChild(ms, f, n) ==> (f in out <==> f in base) && (f in out ==> out[f] == base[f])
  }

  lemma RedirectStep(ms: seq<Mapping>, i: nat, base: Fds, mid: Fds, out: Fds)
    requires i < |ms| && DistinctChildren(ms) && !IsChild(ms, ms[i].parent, i)
    requires Redirected(ms, i, base, mid)
    requires forall f :: f != ms[i].child ==> (f in out <==> f in mid) && (f in out ==> out[f] == mid[f])
    requires ms[i].parent in mid ==> ms[i].child in out && out[ms[i].child] == Desc(mid[ms[i].parent].file, false)
    ensures Redirected(ms, i + 1, base, out)
  {
    IsChildStep(ms, i);
    forall k | 0 <= k < i + 1 && ms[k].parent in base
      ensures ms[k].child in out && out[ms[k].child] == Desc(base[ms[k].parent].file, false)
    {
      if k < i {
        assert ms[k].child != ms[i].child;
      }
    }
  }

  lemma IsChildStep(ms: seq<Mapping>, i: nat)
    requires i < |ms|
    ensures forall f :: IsChild(ms, f, i + 1) <==> IsChild(ms, f, i) || f == ms[i].child
  {
    forall f ensures IsChild(ms, f, i + 1) <==> IsChild(ms, f, i) || f == ms[i].child {
      if IsChild(ms, f, i) {
        var k :| 0 <= k < i && k < |ms| && ms[k].child == f;
        assert k < i + 1;
      }
    }
  }

  /** The first n sources that are no targets have been closed. */
  ghost predicate Closed(ms: seq<Mapping>, n: nat, base: Fds, out: Fds) {
    forall f ::
      && (f in out <==> f in base && (IsSource(ms, f, n) ==> IsChild(ms, f, |ms|)))
      && (f in out ==> out[f] == base[f])
  }

  lemma CloseStep(ms: seq<Mapping>, i: nat, base: Fds, mid: Fds, out: Fds)
    requires i < |ms| && Closed(ms, i, base, mid)
    requires out == if IsChild(ms, ms[i].parent, |ms|) then mid else mid - {ms[i].parent}
    ensures Closed(ms, i + 1, base, out)
  {
    forall f ensures IsSource(ms, f, i + 1) <==> IsSource(ms, f, i) || f == ms[i].parent {
      if IsSource(ms, f, i) {
        var k :| 0 <= k < i && k < |ms| && ms[k].parent == f;
        assert k < i + 1;
      }
    }
  }

  /** A pipe whose number is handed on as a source is closed with it: descriptor 3, a pipe, is to
      become 5 in the child, and the launcher's end of the pipe is gone. */
  method LosePipe() returns (launch: Launch, r: Outcome)
    ensures r == Fine && launch.fds == map[5 := Desc(7, false)] && launch.pipes == [3]
  {
    var fds, ms: seq<Mapping> := map[3 := Desc(7, true)], [Mapping(3, 5)];
    launch := new Launch(fds, 4096, ms, [3]);
    assert ms[0] == Mapping(3, 5);
    assert !IsChild(ms, 3, |ms|) && IsParent(ms, 3) && IsChild(ms, 5, |ms|);
    assert Temporaries(ms, fds, 1) == 0 && PipeTemporaries(ms, [3], 1) == 0;
    assert forall f :: IsChild(ms, f, |ms|) ==> f == 5;
    r := launch.Remap();
    assert forall f :: f in launch.fds ==> f == 5;
  }
}
