/** Artifact handles of src/artifact/core.c: the shared and exclusive file locks that a handle
    takes between open and close, over any number of processes, and bounded positioned reads. */
module ArtifactPins {
  import opened Bytes
  import opened Wrappers

  // ---- the lock life cycle of every handle ----

  datatype Lock = Unlocked | Shared | Exclusive

  /** Where a handle stands in the calls on it. Converting a lock is not atomic: the old one is
      released first, and the new one may then be refused. */
  datatype Phase = Closed | Opening | Admitting | Live | Pinning | Validating

  /** How the latest exclusive pin of a handle went. A refused one leaves the shared lock either
      lost or, where the system converts atomically, kept. */
  datatype Attempt = Never | Won | Lost | Kept

  datatype Handle = Handle(inode: nat, phase: Phase, lock: Lock, attempt: Attempt)

  type State = seq<Handle>

  datatype Action =
    | OpenPath(inode: nat)
    | TakeShared
    | RefuseShared
    | Admit
    | Reject
    | ReleaseToPin
    | PinAgain
    | TakeExclusive
    | RefuseExclusive
    | RefuseAtomically
    | Validated(ok: bool)
    | Close

  /** No other handle on the inode holds an exclusive lock; none holds any lock. */
  predicate NoExclusive(s: State, h: nat)
    requires h < |s|
  {
    forall k :: 0 <= k < |s| && k != h && s[k].inode == s[h].inode ==> s[k].lock != Exclusive
  }

  predicate Alone(s: State, h: nat)
    requires h < |s|
  {
    forall k :: 0 <= k < |s| && k != h && s[k].inode == s[h].inode ==> s[k].lock == Unlocked
  }

  predicate Enabled(s: State, h: nat, a: Action) {
    h < |s| &&
    match a
    case OpenPath(_) => s[h].phase.Closed?
    case TakeShared => s[h].phase.Opening? && NoExclusive(s, h)
    case RefuseShared => s[h].phase.Opening?
    case Admit => s[h].phase.Admitting?
    case Reject => s[h].phase.Admitting?
    case ReleaseToPin => s[h].phase.Live? && s[h].lock != Exclusive
    case PinAgain => s[h].phase.Live? && s[h].lock == Exclusive
    case TakeExclusive => s[h].phase.Pinning? && Alone(s, h)
    case RefuseExclusive => s[h].phase.Pinning?
    case RefuseAtomically => s[h].phase.Live? && s[h].lock == Shared
    case Validated(_) => s[h].phase.Validating?
    case Close => s[h].phase.Live?
  }

  function After(x: Handle, a: Action): Handle {
    match a
    case OpenPath(inode) => Handle(inode, Opening, Unlocked, Never)
    case TakeShared => x.(phase := Admitting, lock := Shared)
    case RefuseShared => x.(phase := Closed, lock := Unlocked)
    case Admit => x.(phase := Live)
    case Reject => x.(phase := Closed, lock := Unlocked)
    case ReleaseToPin => x.(phase := Pinning, lock := Unlocked)
    case PinAgain => x.(phase := Validating)
    case TakeExclusive => x.(phase := Validating, lock := Exclusive, attempt := Won)
    case RefuseExclusive => x.(phase := Live, attempt := Lost)
    case RefuseAtomically => x.(attempt := Kept)
    case Validated(_) => x.(phase := Live)
    case Close => x.(phase := Closed, lock := Unlocked)
  }

  function Next(s: State, h: nat, a: Action): State
    requires Enabled(s, h, a)
  {
    s[h := After(s[h], a)]
  }

  type Schedule = seq<(nat, Action)>

  predicate Possible(s: State, schedule: Schedule)
    decreases schedule
  {
    schedule == [] || (Enabled(s, schedule[0].0, schedule[0].1)
                       && Possible(Next(s, schedule[0].0, schedule[0].1), schedule[1..]))
  }

  function Run(s: State, schedule: Schedule): State
    requires Possible(s, schedule)
    decreases schedule
  {
    if schedule == [] then s else Run(Next(s, schedule[0].0, schedule[0].1), schedule[1..])
  }

  predicate Init(s: State) { forall k :: 0 <= k < |s| ==> s[k] == Handle(s[k].inode, Closed, Unlocked, Never) }

  // ---- what every reachable state satisfies ----

  /** The lock a handle holds, from its phase and the outcome of its latest pin alone. */
  function Expected(x: Handle): Lock {
    match x.phase
    case Closed => Unlocked
    case Opening => Unlocked
    case Admitting => Shared
    case Pinning => Unlocked
    case Validating => Exclusive
    case Live => (match x.attempt case Never => Shared case Kept => Shared case Won => Exclusive case Lost => Unlocked)
  }

  predicate HandleOk(x: Handle) {
    && x.lock == Expected(x)
    && (x.phase.Validating? ==> x.attempt == Won)
    && (x.phase.Opening? || x.phase.Admitting? ==> x.attempt == Never)
  }

  predicate Exclusion(s: State) {
    forall h, k :: 0 <= h < |s| && 0 <= k < |s| && h != k && s[h].inode == s[k].inode && s[h].lock == Exclusive
      ==> s[k].lock == Unlocked
  }

  predicate Inv(s: State) { (forall k :: 0 <= k < |s| ==> HandleOk(s[k])) && Exclusion(s) }

  lemma StepInv(s: State, h: nat, a: Action)
    requires Inv(s) && Enabled(s, h, a)
    ensures Inv(Next(s, h, a))
  {
  }

  lemma {:induction false} RunInv(s: State, schedule: Schedule)
    requires Inv(s) && Possible(s, schedule)
    ensures Inv(Run(s, schedule)) && |Run(s, schedule)| == |s|
    decreases schedule
  {
    if schedule != [] {
      StepInv(s, schedule[0].0, schedule[0].1);
      RunInv(Next(s, schedule[0].0, schedule[0].1), schedule[1..]);
    }
  }

  lemma InitInv(s: State)
    requires Init(s)
    ensures Inv(s)
  {
  }

  predicate Reached(s0: State, schedule: Schedule, s: State) {
    Init(s0) && Possible(s0, schedule) && s == Run(s0, schedule)
  }

  lemma ReachedInv(s0: State, schedule: Schedule, s: State)
    requires Reached(s0, schedule, s)
    ensures Inv(s)
  {
    InitInv(s0);
    RunInv(s0, schedule);
  }

  /** An exclusive lock is the only lock on its inode. */
  lemma SoleHolder(s0: State, schedule: Schedule, s: State, h: nat, k: nat)
    requires Reached(s0, schedule, s) && h < |s| && k < |s| && h != k && s[h].inode == s[k].inode
    requires s[h].lock == Exclusive
    ensures s[k].lock == Unlocked
  {
    ReachedInv(s0, schedule, s);
  }

  /** A live handle is without a lock exactly when its latest pin was refused and not atomically;
      it is exclusive exactly when that pin was granted, whatever validation then said. */
  lemma LockOfLiveHandle(s0: State, schedule: Schedule, s: State, h: nat)
    requires Reached(s0, schedule, s) && h < |s| && s[h].phase.Live?
    ensures s[h].lock == Unlocked <==> s[h].attempt == Lost
    ensures s[h].lock == Exclusive <==> s[h].attempt == Won
    ensures s[h].attempt == Never ==> s[h].lock == Shared
  {
    ReachedInv(s0, schedule, s);
  }

  /** What a caller has seen of its pins: the answer of the latest one. */
  datatype Answer = NotTried | Granted | Refused

  function LatestAnswer(schedule: Schedule, h: nat, before: Answer): Answer
    decreases schedule
  {
    if schedule == [] then before
    else
      var now := if schedule[0].0 != h then before
                 else match schedule[0].1
                      case OpenPath(_) => NotTried
                      case TakeExclusive => Granted
                      case RefuseExclusive => Refused
                      case RefuseAtomically => Refused
                      case _ => before;
      LatestAnswer(schedule[1..], h, now)
  }

  function AnswerOf(attempt: Attempt): Answer {
    match attempt case Never => NotTried case Won => Granted case Lost => Refused case Kept => Refused
  }

  predicate Without(schedule: Schedule, h: nat, a: Action) {
    forall e :: 0 <= e < |schedule| ==> schedule[e] != (h, a)
  }

  lemma {:induction false} AnswersAre(s: State, schedule: Schedule, h: nat)
    requires Possible(s, schedule) && h < |s|
    ensures |Run(s, schedule)| == |s|
    ensures LatestAnswer(schedule, h, AnswerOf(s[h].attempt)) == AnswerOf(Run(s, schedule)[h].attempt)
    ensures Without(schedule, h, RefuseAtomically) && s[h].attempt != Kept ==> Run(s, schedule)[h].attempt != Kept
    ensures Without(schedule, h, RefuseExclusive) && s[h].attempt != Lost ==> Run(s, schedule)[h].attempt != Lost
    decreases schedule
  {
    if schedule != [] {
      AnswersAre(Next(s, schedule[0].0, schedule[0].1), schedule[1..], h);
      assert forall e :: 0 <= e < |schedule[1..]| ==> schedule[1..][e] == schedule[e + 1];
    }
  }

  /** Where conversion is not atomic, a live handle is without a lock if and only if its latest pin
      was refused, which its caller has been told; where it is atomic, it never is. */
  lemma UnlockedExactly(s0: State, schedule: Schedule, s: State, h: nat)
    requires Reached(s0, schedule, s) && h < |s| && s[h].phase.Live?
    ensures Without(schedule, h, RefuseAtomically) ==>
              (s[h].lock == Unlocked <==> LatestAnswer(schedule, h, NotTried) == Refused)
    ensures Without(schedule, h, RefuseExclusive) ==> s[h].lock != Unlocked
  {
    ReachedInv(s0, schedule, s);
    InitInv(s0);
    RunInv(s0, schedule);
    assert s0[h] == Handle(s0[h].inode, Closed, Unlocked, Never);
    AnswersAre(s0, schedule, h);
  }

  /** So while a handle is pinned, the only other live handles are those with a refused pin. */
  lemma PinnedMeansNoReader(s0: State, schedule: Schedule, s: State, h: nat, k: nat)
    requires Reached(s0, schedule, s) && h < |s| && k < |s| && h != k && s[h].inode == s[k].inode
    requires s[h].lock == Exclusive && s[k].phase.Live?
    ensures s[k].attempt == Lost
  {
    ReachedInv(s0, schedule, s);
  }

  predicate Idle(schedule: Schedule, h: nat) { forall e :: 0 <= e < |schedule| ==> schedule[e].0 != h }

  /** A live reader that never tried to pin keeps its lock until it acts itself, and keeps every
      other handle from being pinned, whatever they do. */
  lemma {:induction false} ReaderHolds(s: State, schedule: Schedule, k: nat)
    requires Inv(s) && Possible(s, schedule) && Idle(schedule, k)
    requires k < |s| && s[k].phase.Live? && s[k].attempt == Never
    ensures |Run(s, schedule)| == |s| && Run(s, schedule)[k] == s[k] && s[k].lock == Shared
    ensures forall h :: 0 <= h < |s| && h != k && Run(s, schedule)[h].inode == s[k].inode
              ==> Run(s, schedule)[h].lock != Exclusive
    decreases schedule
  {
    if schedule != [] {
      var (h, a) := schedule[0];
      assert h != k;
      StepInv(s, h, a);
      assert forall e :: 0 <= e < |schedule[1..]| ==> schedule[1..][e] == schedule[e + 1];
      ReaderHolds(Next(s, h, a), schedule[1..], k);
    }
  }

  /** Past the shared lock: the handle reads, or has been through a pin. */
  predicate InsideOn(x: Handle, inode: nat) { x.inode == inode && !x.phase.Closed? && !x.phase.Opening? }

  predicate StaysOpen(schedule: Schedule, h: nat) {
    forall e :: 0 <= e < |schedule| ==> schedule[e] != (h, Close)
  }

  /** Until a pinned handle is closed it stays pinned, and nobody gets in. */
  lemma {:induction false} NobodyComesIn(s: State, schedule: Schedule, h: nat, k: nat)
    requires Inv(s) && Possible(s, schedule) && StaysOpen(schedule, h)
    requires h < |s| && k < |s| && h != k && s[h].lock == Exclusive
    ensures |Run(s, schedule)| == |s|
    ensures Run(s, schedule)[h].lock == Exclusive && Run(s, schedule)[h].inode == s[h].inode
    ensures InsideOn(Run(s, schedule)[k], s[h].inode) ==> InsideOn(s[k], s[h].inode)
    decreases schedule
  {
    if schedule != [] {
      var (g, a) := schedule[0];
      StepInv(s, g, a);
      assert forall e :: 0 <= e < |schedule[1..]| ==> schedule[1..][e] == schedule[e + 1];
      assert (g, a) != (h, Close);
      NobodyComesIn(Next(s, g, a), schedule[1..], h, k);
    }
  }

  /** A refused pin can leave a live reader unprotected: another handle is then pinned under it. */
  lemma RefusedPinUnprotects()
    ensures exists s0: State, schedule: Schedule, s: State ::
              Reached(s0, schedule, s) && |s| == 2 && s[0].inode == s[1].inode
              && s[0].phase.Live? && s[1].lock == Exclusive
  {
    var c := Handle(7, Closed, Unlocked, Never);
    var lost := Handle(7, Live, Unlocked, Lost);
    var live := Handle(7, Live, Shared, Never);
    var a: Schedule := [(0, OpenPath(7)), (0, TakeShared), (0, Admit)];
    var b: Schedule := [(1, OpenPath(7)), (1, TakeShared), (1, Admit)];
    var d: Schedule := [(0, ReleaseToPin), (0, RefuseExclusive), (1, ReleaseToPin), (1, TakeExclusive)];
    assert Goes([c, c], a, [live, c]) by { Admitted([c, c], 0, 7); assert [c, c][0 := live] == [live, c]; }
    assert Goes([live, c], b, [live, live]) by { Admitted([live, c], 1, 7); assert [live, c][1 := live] == [live, live]; }
    assert Goes([live, live], d, [lost, Handle(7, Validating, Exclusive, Won)]) by { Stolen(7); }
    Chain([c, c], a, [live, c], b, [live, live]);
    Chain([c, c], a + b, [live, live], d, [lost, Handle(7, Validating, Exclusive, Won)]);
    assert Reached([c, c], a + b + d, [lost, Handle(7, Validating, Exclusive, Won)]);
  }

  predicate Goes(s: State, schedule: Schedule, t: State) { Possible(s, schedule) && Run(s, schedule) == t }

  lemma {:induction false} Chain(s: State, a: Schedule, t: State, b: Schedule, u: State)
    requires Goes(s, a, t) && Goes(t, b, u)
    ensures Goes(s, a + b, u)
    decreases a
  {
    if a == [] {
      assert a + b == b;
    } else {
      assert (a + b)[0] == a[0] && (a + b)[1..] == a[1..] + b;
      Chain(Next(s, a[0].0, a[0].1), a[1..], t, b, u);
    }
  }

  lemma One(s: State, h: nat, a: Action)
    requires Enabled(s, h, a)
    ensures Goes(s, [(h, a)], Next(s, h, a))
  {
    assert [(h, a)][1..] == [];
    assert Possible(Next(s, h, a), []) && Run(Next(s, h, a), []) == Next(s, h, a);
  }

  lemma Admitted(s: State, h: nat, inode: nat)
    requires h < |s| && s[h].phase.Closed?
    requires forall k :: 0 <= k < |s| && k != h ==> s[k].lock != Exclusive
    ensures Goes(s, [(h, OpenPath(inode)), (h, TakeShared), (h, Admit)], s[h := Handle(inode, Live, Shared, Never)])
  {
    var s1 := Next(s, h, OpenPath(inode));
    var s2 := Next(s1, h, TakeShared);
    One(s, h, OpenPath(inode));
    One(s1, h, TakeShared);
    One(s2, h, Admit);
    Chain(s, [(h, OpenPath(inode))], s1, [(h, TakeShared)], s2);
    Chain(s, [(h, OpenPath(inode)), (h, TakeShared)], s2, [(h, Admit)], Next(s2, h, Admit));
    assert [(h, OpenPath(inode))] + [(h, TakeShared)] == [(h, OpenPath(inode)), (h, TakeShared)];
    assert [(h, OpenPath(inode)), (h, TakeShared)] + [(h, Admit)] == [(h, OpenPath(inode)), (h, TakeShared), (h, Admit)];
    assert Next(s2, h, Admit) == s[h := Handle(inode, Live, Shared, Never)];
  }

  lemma Stolen(inode: nat)
    ensures var live := Handle(inode, Live, Shared, Never);
            Goes([live, live], [(0, ReleaseToPin), (0, RefuseExclusive), (1, ReleaseToPin), (1, TakeExclusive)],
                 [Handle(inode, Live, Unlocked, Lost), Handle(inode, Validating, Exclusive, Won)])
  {
    var live, lost := Handle(inode, Live, Shared, Never), Handle(inode, Live, Unlocked, Lost);
    var s0: State := [live, live];
    var s1: State := [live.(phase := Pinning, lock := Unlocked), live];
    var s2: State := [lost, live];
    var s3: State := [lost, live.(phase := Pinning, lock := Unlocked)];
    var s4: State := [lost, Handle(inode, Validating, Exclusive, Won)];
    One(s0, 0, ReleaseToPin);
    One(s1, 0, RefuseExclusive);
    One(s2, 1, ReleaseToPin);
    One(s3, 1, TakeExclusive);
    assert Next(s0, 0, ReleaseToPin) == s1 && Next(s1, 0, RefuseExclusive) == s2;
    assert Next(s2, 1, ReleaseToPin) == s3 && Next(s3, 1, TakeExclusive) == s4;
    Chain(s0, [(0, ReleaseToPin)], s1, [(0, RefuseExclusive)], s2);
    Chain(s2, [(1, ReleaseToPin)], s3, [(1, TakeExclusive)], s4);
    Chain(s0, [(0, ReleaseToPin)] + [(0, RefuseExclusive)], s2, [(1, ReleaseToPin)] + [(1, TakeExclusive)], s4);
    assert [(0, ReleaseToPin)] + [(0, RefuseExclusive)] + ([(1, ReleaseToPin)] + [(1, TakeExclusive)]) ==
           [(0, ReleaseToPin), (0, RefuseExclusive), (1, ReleaseToPin), (1, TakeExclusive)];
  }

  /** A live handle is granted its pin exactly when no other handle on its inode holds a lock; handles on
      other inodes, and unlocked ones, do not matter. */
  lemma PinExactly(s: State, h: nat)
    requires Inv(s) && h < |s| && s[h].phase.Live? && s[h].lock != Exclusive
    ensures Goes(s, [(h, ReleaseToPin), (h, TakeExclusive)], s[h := Handle(s[h].inode, Validating, Exclusive, Won)]) <==>
            !exists k :: 0 <= k < |s| && k != h && s[k].inode == s[h].inode && s[k].lock != Unlocked
  {
    var schedule: Schedule := [(h, ReleaseToPin), (h, TakeExclusive)];
    var mid := Next(s, h, ReleaseToPin);
    assert schedule[1..] == [(h, TakeExclusive)] && schedule[0] == (h, ReleaseToPin);
    assert Possible(s, schedule) <==> Possible(mid, [(h, TakeExclusive)]);
    assert forall k :: 0 <= k < |s| && k != h ==> mid[k] == s[k];
    assert Enabled(mid, h, TakeExclusive) <==> Alone(s, h);
    if Alone(s, h) {
      One(s, h, ReleaseToPin);
      One(mid, h, TakeExclusive);
      Chain(s, [(h, ReleaseToPin)], mid, [(h, TakeExclusive)], Next(mid, h, TakeExclusive));
      assert [(h, ReleaseToPin)] + [(h, TakeExclusive)] == schedule;
      assert Next(mid, h, TakeExclusive) == s[h := Handle(s[h].inode, Validating, Exclusive, Won)];
    }
  }

  // ---- bounded reads ----

  const INT64_MAX: nat := 0x7fff_ffff_ffff_ffff
  const UINT64_MAX: nat := 0xffff_ffff_ffff_ffff

  /** Running stands for a call that has not returned. */
  datatype Status = Ok | InvalidArg | Bounds | Io | Running

  /** Unsigned 64-bit subtraction, as the machine does it. */
  function Minus64(a: nat, b: nat): nat
    requires a <= UINT64_MAX && b <= UINT64_MAX
  {
    if b <= a then a - b else a + (UINT64_MAX + 1) - b
  }

  /** The range check never wraps: it accepts exactly the ranges that end inside the file. */
  function RangeCheck(size: nat, offset: nat, len: nat): (r: Status)
    requires size <= UINT64_MAX && offset <= UINT64_MAX && len <= UINT64_MAX
    ensures r == Ok <==> offset + len <= size
    ensures r == Ok || r == Bounds
  {
    if offset > size then Bounds else if len > Minus64(size, offset) then Bounds else Ok
  }

  /** The bytes of the file now, and its size when it was opened. */
  datatype Artifact = Artifact(bytes: seq<byte>, size: nat)

  /** What one positioned read returns. */
  datatype Pread = Interrupted | Failed | Count(n: nat)

  /** Reads len bytes at an offset while the system answers with a script of results; a read
      never returns more than is there. The size is the one observed at open; no artifact is None. */
  method ReadAt(artifact: Option<Artifact>, offset: nat, dst: array?<byte>, len: nat, script: seq<Pread>)
    returns (r: Status, done: nat)
    requires artifact.Some? ==> artifact.value.size <= INT64_MAX
    requires offset <= UINT64_MAX && len <= UINT64_MAX && (dst != null ==> len <= dst.Length)
    modifies if dst == null then {} else {dst}
    ensures r == InvalidArg <==> artifact.None? || (dst == null && len != 0)
    ensures r == Bounds <==> r != InvalidArg && offset + len > artifact.value.size
    ensures r == Ok <==> r != InvalidArg && r != Bounds && done == len
    ensures done <= len && (r == InvalidArg || r == Bounds ==> done == 0)
    ensures done > 0 ==> artifact.Some? && dst != null && offset + done <= |artifact.value.bytes|
    ensures forall i :: 0 <= i < done ==> dst[i] == artifact.value.bytes[offset + i]
    ensures dst != null ==> forall i :: done <= i < dst.Length ==> dst[i] == old(dst[i])
  {
    done := 0;
    if artifact.None? || (dst == null && len != 0) { return InvalidArg, done; }
    var file, size := artifact.value.bytes, artifact.value.size;
    if RangeCheck(size, offset, len) != Ok { return Bounds, done; }
    var step := 0;
    while done < len
      invariant step <= |script| && done <= len && (done > 0 ==> offset + done <= |file|)
      invariant dst != null || len == 0
      invariant forall i :: 0 <= i < done ==> dst[i] == file[offset + i]
      invariant dst != null ==> forall i :: done <= i < dst.Length ==> dst[i] == old(dst[i])
      decreases |script| - step
    {
      var current := offset + done;
      if current > INT64_MAX { return Bounds, done; }
      if step == |script| { return Running, done; }
      var answer := script[step];
      step := step + 1;
      match answer
      case Interrupted =>
      case Failed => return Io, done;
      case Count(n) =>
        var room := if current <= |file| then |file| - current else 0;
        var got := if n <= len - done then n else len - done;
        got := if got <= room then got else room;
        if got == 0 { return Io, done; }
        forall i | 0 <= i < got { dst[done + i] := file[current + i]; }
        done := done + got;
    }
    r := Ok;
  }
}
