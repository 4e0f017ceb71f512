/** What one test of the QA scheduler does, seen on its own: in every run of QaScheduler, whatever the
    other workers do, the steps of one worker are those of one pass through execute_one, in its order,
    and what the test reports can be told from them. */
module QaTrace {
  import opened QaScheduler
  import opened Sequences
  import opened Wrappers

  // ---- one pass, written down ----

  /** The steps of worker i in a schedule. */
  function Trace(schedule: Schedule, i: nat): seq<Action> {
    if schedule == [] then []
    else Own(schedule[0].0, schedule[0].1, i) + Trace(schedule[1..], i)
  }

  function Own(j: nat, a: Action, i: nat): seq<Action> { if j == i then [a] else [] }

  function Times(a: Action, n: nat): (s: seq<Action>)
    ensures |s| == n
  {
    if n == 0 then [] else Times(a, n - 1) + [a]
  }

  /** Started, with k locks taken. */
  function Opened(k: nat): seq<Action> { [Start] + Times(Acquire, k) }

  /** Inside all its locks, then inside the build lock, then built. */
  function Entered(t: Test): seq<Action> { Opened(|t.locks|) + [Enter] }
  function BuildTaken(t: Test): seq<Action> { Entered(t) + [TakeBuild] }
  function Built(t: Test): seq<Action> { BuildTaken(t) + [BuildPassed] }

  function Repeated(outcomes: seq<Status>): seq<Action> {
    if outcomes == [] then [] else Repeated(outcomes[..|outcomes| - 1]) + [Repeat(outcomes[|outcomes| - 1])]
  }

  /** Built, then repeated with these outcomes. */
  function Ran(t: Test, outcomes: seq<Status>): seq<Action> { Built(t) + Repeated(outcomes) }

  predicate AllPass(outcomes: seq<Status>) { forall k :: 0 <= k < |outcomes| ==> outcomes[k] == Pass }

  /** How the part inside the locks ended, with `held` locks to give back. */
  datatype Ending = Passed | Failed | Unbuilt | Faulted(before: seq<Action>)

  /** Steps after which a fault may come: none of the ends below. */
  predicate Underway(t: Test, before: seq<Action>, held: nat, done: seq<Status>) {
    || (held <= |t.locks| && before == Opened(held))
    || (held == |t.locks| && (before == Entered(t) || before == BuildTaken(t)))
    || (held == |t.locks| && AllPass(done) && |done| <= t.repeat && before == Ran(t, done))
  }

  ghost predicate Ends(t: Test, e: Ending, head: seq<Action>, held: nat, status: Status, repeats: seq<Status>) {
    match e
    case Passed =>
      && held == |t.locks| && status == Pass && |repeats| == t.repeat && AllPass(repeats)
      && head == Ran(t, repeats) + [Leave]
    case Failed =>
      && held == |t.locks| && status in {Fail, Error} && 0 < |repeats| <= t.repeat
      && AllPass(repeats[..|repeats| - 1]) && repeats[|repeats| - 1] == status
      && head == Ran(t, repeats)
    case Unbuilt =>
      held == |t.locks| && status == Error && repeats == [] && head == BuildTaken(t) + [BuildFailed]
    case Faulted(before) =>
      status == Error && repeats == [] && head == before + [Fault] && exists done :: Underway(t, before, held, done)
  }

  /** The steps a test has taken when its worker is as given. */
  ghost predicate Explains(t: Test, trace: seq<Action>, w: Worker) {
    match w.phase
    case Queued => trace == []
    case Acquiring => |w.streams| <= |t.locks| && trace == Opened(|w.streams|)
    case Waiting => |w.streams| == |t.locks| && trace == Entered(t)
    case Building => |w.streams| == |t.locks| && trace == BuildTaken(t)
    case Running =>
      |w.streams| == |t.locks| && AllPass(w.repeats) && |w.repeats| <= t.repeat && trace == Ran(t, w.repeats)
    case Releasing => Closing(t, trace, w.status, w.repeats, |w.streams|)
    case Finished => Over(t, trace, w)
  }

  /** One of the endings, and all but `left` locks given back. */
  ghost predicate Closing(t: Test, trace: seq<Action>, status: Status, repeats: seq<Status>, left: nat) {
    exists e, head, held: nat ::
      Ends(t, e, head, held, status, repeats) && left <= held && trace == head + Times(Release, held - left)
  }

  /** A finished test was refused at once, or went through its locks, one of the endings, and gave
      every lock back. */
  ghost predicate Over(t: Test, trace: seq<Action>, w: Worker) {
    || (trace == [Refuse] && w.repeats == [] && w.status == if t.skipPolicy then Skip else Blocked)
    || exists e, head, held: nat ::
         Ends(t, e, head, held, w.status, w.repeats) && trace == head + Times(Release, held) + [Finish]
  }

  // ---- every step continues the pass ----

  lemma RanMore(t: Test, outcomes: seq<Status>, o: Status)
    ensures Ran(t, outcomes + [o]) == Ran(t, outcomes) + [Repeat(o)]
  {
    assert (outcomes + [o])[..|outcomes|] == outcomes;
    Regroup(Built(t), Repeated(outcomes), [Repeat(o)]);
  }

  lemma StepRuns(t: Test, trace: seq<Action>, w: Worker, a: Action)
    requires WorkerOk(t, w) && Ready(t, w, a) && Explains(t, trace, w)
    requires a in {Start, Acquire, Enter, TakeBuild, BuildPassed}
    ensures Explains(t, trace + [a], After(t, w, a))
  {
    var n := After(t, w, a);
    match a {
      case Start =>
        assert trace + [a] == Opened(0);
      case Acquire =>
        Regroup([Start], Times(Acquire, |w.streams|), [Acquire]);
        assert trace + [a] == Opened(|n.streams|);
      case Enter =>
      case TakeBuild =>
      case BuildPassed =>
        assert trace + [a] == Ran(t, []);
    }
  }

  lemma EndsNow(t: Test, e: Ending, head: seq<Action>, w: Worker)
    requires w.phase == Releasing && Ends(t, e, head, |w.streams|, w.status, w.repeats)
    ensures Explains(t, head, w)
  {
    assert head == head + Times(Release, 0);
  }

  lemma StepRepeats(t: Test, trace: seq<Action>, w: Worker, o: Status)
    requires WorkerOk(t, w) && Ready(t, w, Repeat(o)) && Explains(t, trace, w)
    ensures Explains(t, trace + [Repeat(o)], After(t, w, Repeat(o)))
  {
    var n := After(t, w, Repeat(o));
    RanMore(t, w.repeats, o);
    if o != Pass {
      assert n.repeats[..|n.repeats| - 1] == w.repeats;
      EndsNow(t, Failed, trace + [Repeat(o)], n);
    }
  }

  lemma StepEnds(t: Test, trace: seq<Action>, w: Worker, a: Action)
    requires WorkerOk(t, w) && Ready(t, w, a) && Explains(t, trace, w)
    requires a in {BuildFailed, Leave, Fault}
    ensures Explains(t, trace + [a], After(t, w, a))
  {
    var n := After(t, w, a);
    match a {
      case BuildFailed => EndsNow(t, Unbuilt, trace + [a], n);
      case Leave => EndsNow(t, Passed, trace + [a], n);
      case Fault =>
        assert Underway(t, trace, |n.streams|, w.repeats);
        EndsNow(t, Faulted(trace), trace + [a], n);
    }
  }

  lemma TimesMore(head: seq<Action>, a: Action, n: nat)
    ensures head + Times(a, n) + [a] == head + Times(a, n + 1)
  {
  }

  lemma ClosingGoesOn(t: Test, trace: seq<Action>, status: Status, repeats: seq<Status>, left: nat)
    requires left > 0 && Closing(t, trace, status, repeats, left)
    ensures Closing(t, trace + [Release], status, repeats, left - 1)
  {
    var e, head, held: nat :|
      Ends(t, e, head, held, status, repeats) && left <= held && trace == head + Times(Release, held - left);
    TimesMore(head, Release, held - left);
  }

  lemma StepReleases(t: Test, trace: seq<Action>, w: Worker, a: Action)
    requires WorkerOk(t, w) && Ready(t, w, a) && Explains(t, trace, w)
    requires a in {Refuse, Release, Finish}
    ensures Explains(t, trace + [a], After(t, w, a))
  {
    match a {
      case Refuse => assert trace + [a] == [Refuse];
      case Release => ClosingGoesOn(t, trace, w.status, w.repeats, |w.streams|);
      case Finish =>
    }
  }

  lemma StepExplains(t: Test, trace: seq<Action>, w: Worker, a: Action)
    requires WorkerOk(t, w) && Ready(t, w, a) && Explains(t, trace, w)
    ensures Explains(t, trace + [a], After(t, w, a))
  {
    match a {
      case Start => StepRuns(t, trace, w, a);
      case Acquire => StepRuns(t, trace, w, a);
      case Enter => StepRuns(t, trace, w, a);
      case TakeBuild => StepRuns(t, trace, w, a);
      case BuildPassed => StepRuns(t, trace, w, a);
      case Repeat(o) => StepRepeats(t, trace, w, o);
      case BuildFailed => StepEnds(t, trace, w, a);
      case Leave => StepEnds(t, trace, w, a);
      case Fault => StepEnds(t, trace, w, a);
      case Refuse => StepReleases(t, trace, w, a);
      case Release => StepReleases(t, trace, w, a);
      case Finish => StepReleases(t, trace, w, a);
    }
  }

  lemma OneMoves(s: State, j: nat, a: Action, i: nat)
    requires Inv(s) && j < |s.tests| && i < |s.tests| && Enabled(s, j, a)
    ensures var n := Next(s, j, a);
            n.tests == s.tests && n.workers[i] == if j == i then After(s.tests[i], s.workers[i], a) else s.workers[i]
  {
  }

  lemma NextExplains(s: State, j: nat, a: Action, i: nat, before: seq<Action>)
    requires Inv(s) && j < |s.tests| && i < |s.tests| && Enabled(s, j, a)
    requires Explains(s.tests[i], before, s.workers[i])
    ensures Explains(s.tests[i], before + Own(j, a, i), Next(s, j, a).workers[i])
  {
    OneMoves(s, j, a, i);
    if j == i {
      StepExplains(s.tests[i], before, s.workers[i], a);
    } else {
      assert before + Own(j, a, i) == before;
    }
  }

  lemma {:induction false} RunExplains(s: State, schedule: Schedule, i: nat, before: seq<Action>)
    requires Inv(s) && Valid(s, schedule) && i < |s.tests| && Explains(s.tests[i], before, s.workers[i])
    ensures Explains(s.tests[i], before + Trace(schedule, i), Reached(s, schedule).workers[i])
    decreases schedule
  {
    if schedule == [] {
      assert before + Trace(schedule, i) == before;
    } else {
      var (j, a) := schedule[0];
      var next, now := Next(s, j, a), before + Own(j, a, i);
      assert Inv(next) by { StepInv(s, j, a); }
      assert Explains(next.tests[i], now, next.workers[i]) by { NextExplains(s, j, a, i, before); }
      RunExplains(next, schedule[1..], i, now);
      Regroup(before, Own(j, a, i), Trace(schedule[1..], i));
    }
  }

  /** In every run the steps of every worker are one pass, as far as it has come. */
  lemma EveryPass(tests: seq<Test>, jobs: map<nat, nat>, schedule: Schedule, i: nat)
    requires Admitted(tests, jobs) && Valid(Init(tests, jobs), schedule) && i < |tests|
    ensures Explains(tests[i], Trace(schedule, i), Reached(Init(tests, jobs), schedule).workers[i])
  {
    InitInv(tests, jobs);
    RunExplains(Init(tests, jobs), schedule, i, []);
    assert [] + Trace(schedule, i) == Trace(schedule, i);
  }

  // ---- and every pass is possible ----

  const FRESH := Worker(Queued, [], [], Pass)

  /** The worker after steps it takes on its own, if it can take them. */
  function Walk(t: Test, trace: seq<Action>): Option<Worker> {
    if trace == [] then Some(FRESH)
    else
      var before, a := Walk(t, trace[..|trace| - 1]), trace[|trace| - 1];
      if before.Some? && Ready(t, before.value, a) then Some(After(t, before.value, a)) else None
  }

  predicate Walks(t: Test, trace: seq<Action>, w: Worker) { Walk(t, trace) == Some(w) }

  lemma WalkMore(t: Test, trace: seq<Action>, w: Worker, a: Action)
    requires Walks(t, trace, w) && Ready(t, w, a)
    ensures Walks(t, trace + [a], After(t, w, a))
  {
    assert (trace + [a])[..|trace|] == trace;
  }

  lemma {:induction false} WalkOpened(t: Test, k: nat)
    requires k <= |t.locks|
    ensures Walks(t, Opened(k), Worker(Acquiring, t.locks[..k], [], Pass))
  {
    if k == 0 {
      WalkMore(t, [], FRESH, Start);
      assert Opened(0) == [] + [Start];
    } else {
      var w := Worker(Acquiring, t.locks[..k - 1], [], Pass);
      WalkOpened(t, k - 1);
      WalkMore(t, Opened(k - 1), w, Acquire);
      assert t.locks[..k] == w.streams + [t.locks[k - 1]];
      Regroup([Start], Times(Acquire, k - 1), [Acquire]);
    }
  }

  lemma WalkBuilds(t: Test)
    ensures Walks(t, Entered(t), Worker(Waiting, t.locks, [], Pass))
    ensures Walks(t, BuildTaken(t), Worker(Building, t.locks, [], Pass))
    ensures Walks(t, Built(t), Worker(Running, t.locks, [], Pass))
  {
    WalkOpened(t, |t.locks|);
    assert t.locks[..|t.locks|] == t.locks;
    WalkMore(t, Opened(|t.locks|), Worker(Acquiring, t.locks, [], Pass), Enter);
    WalkMore(t, Entered(t), Worker(Waiting, t.locks, [], Pass), TakeBuild);
    WalkMore(t, BuildTaken(t), Worker(Building, t.locks, [], Pass), BuildPassed);
  }

  lemma {:induction false} WalkRan(t: Test, outcomes: seq<Status>)
    requires AllPass(outcomes) && |outcomes| <= t.repeat
    ensures Walks(t, Ran(t, outcomes), Worker(Running, t.locks, outcomes, Pass))
    decreases outcomes
  {
    if outcomes == [] {
      WalkBuilds(t);
      assert Ran(t, []) == Built(t);
    } else {
      var front := outcomes[..|outcomes| - 1];
      WalkRan(t, front);
      WalkMore(t, Ran(t, front), Worker(Running, t.locks, front, Pass), Repeat(Pass));
      RanMore(t, front, Pass);
      assert outcomes == front + [Pass];
    }
  }

  lemma WalkFailed(t: Test, repeats: seq<Status>, status: Status)
    requires 0 < |repeats| <= t.repeat && AllPass(repeats[..|repeats| - 1])
    requires repeats[|repeats| - 1] == status && status in {Fail, Error}
    ensures Walks(t, Ran(t, repeats), Worker(Releasing, t.locks, repeats, status))
  {
    var front := repeats[..|repeats| - 1];
    WalkRan(t, front);
    WalkMore(t, Ran(t, front), Worker(Running, t.locks, front, Pass), Repeat(status));
    RanMore(t, front, status);
    assert repeats == front + [status];
  }

  lemma WalkUnderway(t: Test, before: seq<Action>, held: nat, done: seq<Status>) returns (w: Worker)
    requires Underway(t, before, held, done)
    ensures held <= |t.locks| && Walks(t, before, w) && w.streams == t.locks[..held] && Ready(t, w, Fault)
  {
    assert t.locks[..|t.locks|] == t.locks;
    WalkBuilds(t);
    if held <= |t.locks| && before == Opened(held) {
      w := Worker(Acquiring, t.locks[..held], [], Pass);
      WalkOpened(t, held);
    } else if before == Entered(t) {
      w := Worker(Waiting, t.locks, [], Pass);
    } else if before == BuildTaken(t) {
      w := Worker(Building, t.locks, [], Pass);
    } else {
      w := Worker(Running, t.locks, done, Pass);
      WalkRan(t, done);
    }
  }

  lemma WalkEnds(t: Test, e: Ending, head: seq<Action>, held: nat, status: Status, repeats: seq<Status>)
    requires Ends(t, e, head, held, status, repeats)
    ensures held <= |t.locks| && Walks(t, head, Worker(Releasing, t.locks[..held], repeats, status))
  {
    assert t.locks[..|t.locks|] == t.locks;
    match e {
      case Passed =>
        WalkRan(t, repeats);
        WalkMore(t, Ran(t, repeats), Worker(Running, t.locks, repeats, Pass), Leave);
      case Failed => WalkFailed(t, repeats, status);
      case Unbuilt =>
        WalkBuilds(t);
        WalkMore(t, BuildTaken(t), Worker(Building, t.locks, [], Pass), BuildFailed);
      case Faulted(before) =>
        var done :| Underway(t, before, held, done);
        var w := WalkUnderway(t, before, held, done);
        WalkMore(t, before, w, Fault);
    }
  }

  /** Releasing, with n locks given back. */
  function Given(w: Worker, n: nat): Worker
    requires n <= |w.streams|
  {
    w.(streams := w.streams[..|w.streams| - n])
  }

  lemma GivenMore(t: Test, w: Worker, n: nat)
    requires w.phase == Releasing && n < |w.streams|
    ensures Ready(t, Given(w, n), Release) && After(t, Given(w, n), Release) == Given(w, n + 1)
  {
    assert Given(w, n).streams[..|w.streams| - n - 1] == w.streams[..|w.streams| - n - 1];
  }

  lemma {:induction false} WalkReleases(t: Test, head: seq<Action>, w: Worker, n: nat)
    requires Walks(t, head, w) && w.phase == Releasing && n <= |w.streams|
    ensures Walks(t, head + Times(Release, n), Given(w, n))
    decreases n
  {
    if n == 0 {
      assert head + Times(Release, 0) == head && w.streams[..|w.streams|] == w.streams;
    } else {
      WalkReleases(t, head, w, n - 1);
      GivenMore(t, w, n - 1);
      WalkMore(t, head + Times(Release, n - 1), Given(w, n - 1), Release);
      TimesMore(head, Release, n - 1);
    }
  }

  lemma WalkOver(t: Test, trace: seq<Action>, w: Worker)
    requires w.phase == Finished && w.streams == [] && Over(t, trace, w)
    ensures Walks(t, trace, w)
  {
    if e, head, held: nat :|
        Ends(t, e, head, held, w.status, w.repeats) && trace == head + Times(Release, held) + [Finish] {
      var end := Worker(Releasing, t.locks[..held], w.repeats, w.status);
      WalkEnds(t, e, head, held, w.status, w.repeats);
      WalkReleases(t, head, end, held);
      WalkMore(t, head + Times(Release, held), end.(streams := []), Finish);
    } else {
      WalkMore(t, [], FRESH, Refuse);
      assert trace == [] + [Refuse];
    }
  }

  lemma WalkBack(t: Test, trace: seq<Action>, w: Worker) returns (front: seq<Action>, before: Worker, a: Action)
    requires trace != [] && Walks(t, trace, w)
    ensures trace == front + [a] && Walks(t, front, before) && Ready(t, before, a) && w == After(t, before, a)
  {
    front, a := trace[..|trace| - 1], trace[|trace| - 1];
    before := Walk(t, front).value;
  }

  lemma {:induction false} WalkExplains(t: Test, trace: seq<Action>, w: Worker)
    requires Walks(t, trace, w)
    ensures WorkerOk(t, w) && Explains(t, trace, w)
    decreases |trace|
  {
    if trace != [] {
      var front, before, a := WalkBack(t, trace, w);
      WalkExplains(t, front, before);
      assert Explains(t, trace, w) by { StepExplains(t, front, before, a); }
      StepWorker(t, before, a);
    }
  }

  /** A worker's own steps can end a test exactly in the ways written down above. */
  lemma PassesExactly(t: Test, trace: seq<Action>, w: Worker)
    requires w.phase == Finished && w.streams == []
    ensures Walks(t, trace, w) <==> Over(t, trace, w)
  {
    if Walks(t, trace, w) { WalkExplains(t, trace, w); }
    if Over(t, trace, w) { WalkOver(t, trace, w); }
  }

  function Alone(trace: seq<Action>): Schedule {
    if trace == [] then [] else Alone(trace[..|trace| - 1]) + [(0, trace[|trace| - 1])]
  }

  lemma LoneLockFree(s: State)
    requires Inv(s) && |s.tests| == 1 && |s.workers[0].streams| < |s.tests[0].locks|
    ensures s.tests[0].locks[|s.workers[0].streams|] !in s.flocks
  {
    var w, t := s.workers[0], s.tests[0];
    if t.locks[|w.streams|] in s.flocks {
      var k :| 0 <= k < |w.streams| && w.streams[k] == t.locks[|w.streams|];
      AscendingDistinct(t.locks, k, |w.streams|);
    }
  }

  lemma LoneSlotFree(s: State)
    requires Inv(s) && |s.tests| == 1 && s.workers[0].phase == Queued
    ensures SlotFree(s, 0)
  {
    assert ActiveIn(s, s.tests[0].process) == {};
  }

  /** A test alone is kept waiting by nobody. */
  lemma LoneEnabled(s: State, a: Action)
    requires Inv(s) && |s.tests| == 1 && Ready(s.tests[0], s.workers[0], a)
    ensures Enabled(s, 0, a)
  {
    if a in {Start, Refuse} { LoneSlotFree(s); }
    if a == Acquire { LoneLockFree(s); }
  }

  lemma {:induction false} ReachedMore(s: State, schedule: Schedule, i: nat, a: Action)
    requires |s.workers| == |s.tests| && Valid(s, schedule)
    requires i < |s.tests| && Enabled(Reached(s, schedule), i, a)
    ensures Valid(s, schedule + [(i, a)]) && Reached(s, schedule + [(i, a)]) == Next(Reached(s, schedule), i, a)
    decreases schedule
  {
    if schedule == [] {
      assert schedule + [(i, a)] == [(i, a)] && [(i, a)][1..] == [];
    } else {
      assert (schedule + [(i, a)])[1..] == schedule[1..] + [(i, a)];
      ReachedMore(Next(s, schedule[0].0, schedule[0].1), schedule[1..], i, a);
    }
  }

  /** So each of these passes is the whole of some run. */
  lemma {:induction false} EveryPassHappens(t: Test, jobs: map<nat, nat>, trace: seq<Action>, w: Worker)
    requires Admitted([t], jobs) && Walks(t, trace, w)
    ensures Valid(Init([t], jobs), Alone(trace)) && Reached(Init([t], jobs), Alone(trace)).workers == [w]
    decreases trace
  {
    var s := Init([t], jobs);
    if trace != [] {
      var front, a := trace[..|trace| - 1], trace[|trace| - 1];
      EveryPassHappens(t, jobs, front, Walk(t, front).value);
      InitInv([t], jobs);
      ReachedInv(s, Alone(front));
      LoneEnabled(Reached(s, Alone(front)), a);
      ReachedMore(s, Alone(front), 0, a);
    }
  }

  // ---- what a finished test reports ----

  /** The report, told from the steps alone. */
  function Outcome(t: Test, trace: seq<Action>): Status {
    if Refuse in trace then (if t.skipPolicy then Skip else Blocked)
    else if Fault in trace || BuildFailed in trace || Repeat(Error) in trace then Error
    else if Repeat(Fail) in trace then Fail
    else Pass
  }

  function Outcomes(trace: seq<Action>): seq<Status> {
    if trace == [] then []
    else
      var last := trace[|trace| - 1];
      Outcomes(trace[..|trace| - 1]) + if last.Repeat? then [last.outcome] else []
  }

  lemma {:induction false} OutcomesJoin(a: seq<Action>, b: seq<Action>)
    ensures Outcomes(a + b) == Outcomes(a) + Outcomes(b)
    decreases b
  {
    if b == [] {
      assert a + b == a;
    } else {
      var front, last := b[..|b| - 1], b[|b| - 1];
      assert (a + b)[..|a + b| - 1] == a + front;
      OutcomesJoin(a, front);
      Regroup(Outcomes(a), Outcomes(front), if last.Repeat? then [last.outcome] else []);
    }
  }

  lemma {:induction false} OutcomesTimes(a: Action, n: nat)
    requires !a.Repeat?
    ensures Outcomes(Times(a, n)) == []
  {
    if n > 0 {
      assert Times(a, n)[..n - 1] == Times(a, n - 1);
      OutcomesTimes(a, n - 1);
    }
  }

  lemma {:induction false} OutcomesRepeated(outcomes: seq<Status>)
    ensures Outcomes(Repeated(outcomes)) == outcomes
  {
    if outcomes != [] {
      var front, last := outcomes[..|outcomes| - 1], outcomes[|outcomes| - 1];
      OutcomesRepeated(front);
      assert (Repeated(front) + [Repeat(last)])[..|Repeated(front)|] == Repeated(front);
      assert outcomes == front + [last];
    }
  }

  lemma OutcomesOne(trace: seq<Action>, a: Action)
    ensures Outcomes(trace + [a]) == Outcomes(trace) + if a.Repeat? then [a.outcome] else []
  {
    assert (trace + [a])[..|trace|] == trace;
  }

  lemma OutcomesBuilt(t: Test)
    ensures Outcomes(Built(t)) == Outcomes(BuildTaken(t)) == Outcomes(Entered(t)) == []
  {
    OutcomesOpened(|t.locks|);
    OutcomesOne(Opened(|t.locks|), Enter);
    OutcomesOne(Entered(t), TakeBuild);
    OutcomesOne(BuildTaken(t), BuildPassed);
  }

  lemma OutcomesRan(t: Test, outcomes: seq<Status>)
    ensures Outcomes(Ran(t, outcomes)) == outcomes
  {
    OutcomesBuilt(t);
    OutcomesJoin(Built(t), Repeated(outcomes));
    OutcomesRepeated(outcomes);
  }

  lemma OutcomesOpened(k: nat)
    ensures Outcomes(Opened(k)) == []
  {
    OutcomesJoin([Start], Times(Acquire, k));
    assert [Start][..0] == [];
    OutcomesTimes(Acquire, k);
  }

  lemma {:induction false} TimesHas(a: Action, n: nat, x: Action)
    ensures x in Times(a, n) ==> x == a
  {
    if n > 0 { TimesHas(a, n - 1, x); }
  }

  lemma {:induction false} RepeatedHas(outcomes: seq<Status>, x: Action)
    ensures x in Repeated(outcomes) <==> x.Repeat? && x.outcome in outcomes
  {
    if outcomes != [] {
      var front := outcomes[..|outcomes| - 1];
      RepeatedHas(front, x);
      assert outcomes == front + [outcomes[|outcomes| - 1]];
    }
  }

  /** An ending, or a refused repetition, does not occur before it happens. */
  predicate Decides(x: Action) { x in {Refuse, Fault, BuildFailed, Repeat(Fail), Repeat(Error)} }

  lemma BuiltHas(t: Test, k: nat, x: Action)
    requires Decides(x)
    ensures x !in Opened(k) && x !in Entered(t) && x !in BuildTaken(t) && x !in Built(t)
  {
    TimesHas(Acquire, k, x);
    TimesHas(Acquire, |t.locks|, x);
  }

  lemma UnderwayHas(t: Test, before: seq<Action>, held: nat, done: seq<Status>, x: Action)
    requires Underway(t, before, held, done) && Decides(x)
    ensures x !in before
  {
    BuiltHas(t, held, x);
    RepeatedHas(done, x);
  }

  lemma EndsHas(t: Test, e: Ending, head: seq<Action>, held: nat, status: Status, repeats: seq<Status>, x: Action)
    requires Ends(t, e, head, held, status, repeats) && Decides(x)
    ensures x in head <==>
            (e.Faulted? && x == Fault) || (e == Unbuilt && x == BuildFailed) || (e == Failed && x == Repeat(status))
  {
    BuiltHas(t, held, x);
    RepeatedHas(repeats, x);
    match e {
      case Passed =>
      case Failed =>
        var front := repeats[..|repeats| - 1];
        assert repeats == front + [status];
        if x == Repeat(status) { assert repeats[|repeats| - 1] in repeats; }
      case Unbuilt =>
      case Faulted(before) =>
        var done :| Underway(t, before, held, done);
        UnderwayHas(t, before, held, done, x);
    }
  }

  lemma EndsOutcomes(t: Test, e: Ending, head: seq<Action>, held: nat, status: Status, repeats: seq<Status>)
    requires Ends(t, e, head, held, status, repeats) && !e.Faulted?
    ensures Outcomes(head) == repeats
  {
    OutcomesBuilt(t);
    match e {
      case Passed =>
        OutcomesOne(Ran(t, repeats), Leave);
        OutcomesRan(t, repeats);
      case Failed => OutcomesRan(t, repeats);
      case Unbuilt => OutcomesOne(BuildTaken(t), BuildFailed);
    }
  }

  lemma OverHas(t: Test, e: Ending, head: seq<Action>, held: nat, trace: seq<Action>, w: Worker, x: Action)
    requires Ends(t, e, head, held, w.status, w.repeats) && trace == head + Times(Release, held) + [Finish]
    requires Decides(x)
    ensures x in trace <==>
            (e.Faulted? && x == Fault) || (e == Unbuilt && x == BuildFailed) || (e == Failed && x == Repeat(w.status))
  {
    EndsHas(t, e, head, held, w.status, w.repeats, x);
    TimesHas(Release, held, x);
  }

  lemma EndedStatus(t: Test, e: Ending, head: seq<Action>, held: nat, trace: seq<Action>, w: Worker)
    requires Ends(t, e, head, held, w.status, w.repeats) && trace == head + Times(Release, held) + [Finish]
    ensures w.status == Outcome(t, trace) && (Fault in trace <==> e.Faulted?)
  {
    OverHas(t, e, head, held, trace, w, Refuse);
    OverHas(t, e, head, held, trace, w, Fault);
    OverHas(t, e, head, held, trace, w, BuildFailed);
    OverHas(t, e, head, held, trace, w, Repeat(Error));
    OverHas(t, e, head, held, trace, w, Repeat(Fail));
  }

  lemma EndedOutcomes(t: Test, e: Ending, head: seq<Action>, held: nat, trace: seq<Action>, w: Worker)
    requires Ends(t, e, head, held, w.status, w.repeats) && trace == head + Times(Release, held) + [Finish]
    requires !e.Faulted?
    ensures Outcomes(trace) == w.repeats
  {
    EndsOutcomes(t, e, head, held, w.status, w.repeats);
    OutcomesClosed(head, held);
  }

  lemma OutcomesClosed(head: seq<Action>, held: nat)
    ensures Outcomes(head + Times(Release, held) + [Finish]) == Outcomes(head)
  {
    OutcomesOne(head + Times(Release, held), Finish);
    OutcomesJoin(head, Times(Release, held));
    OutcomesTimes(Release, held);
  }

  lemma OverReports(t: Test, trace: seq<Action>, w: Worker)
    requires Over(t, trace, w)
    ensures w.status == Outcome(t, trace)
    ensures w.repeats == if Fault in trace then [] else Outcomes(trace)
  {
    if e, head, held: nat :|
        Ends(t, e, head, held, w.status, w.repeats) && trace == head + Times(Release, held) + [Finish] {
      EndedStatus(t, e, head, held, trace, w);
      if !e.Faulted? { EndedOutcomes(t, e, head, held, trace, w); }
    } else {
      assert trace == [] + [Refuse];
      OutcomesOne([], Refuse);
    }
  }

  /** What a finished test reports is exactly what its steps in the schedule say. */
  lemma ReportedExactly(tests: seq<Test>, jobs: map<nat, nat>, schedule: Schedule, i: nat)
    requires Admitted(tests, jobs) && Valid(Init(tests, jobs), schedule) && i < |tests|
    requires Reached(Init(tests, jobs), schedule).workers[i].phase == Finished
    ensures var w, trace := Reached(Init(tests, jobs), schedule).workers[i], Trace(schedule, i);
            && w.status == Outcome(tests[i], trace)
            && w.repeats == if Fault in trace then [] else Outcomes(trace)
  {
    EveryPass(tests, jobs, schedule, i);
    OverReports(tests[i], Trace(schedule, i), Reached(Init(tests, jobs), schedule).workers[i]);
  }

  // ---- built before run ----

  /** Worker i took the build lock and later was told that its build passed. */
  ghost predicate BuiltIn(schedule: Schedule, i: nat) {
    exists j, k :: 0 <= j < k < |schedule| && schedule[j] == (i, TakeBuild) && schedule[k] == (i, BuildPassed)
  }

  lemma {:induction false} TraceAt(schedule: Schedule, i: nat, n: nat) returns (k: nat)
    requires n < |Trace(schedule, i)|
    ensures k < |schedule| && schedule[k] == (i, Trace(schedule, i)[n]) && |Trace(schedule[..k], i)| == n
  {
    var own := Own(schedule[0].0, schedule[0].1, i);
    if n < |own| {
      k := 0;
    } else {
      var rest := TraceAt(schedule[1..], i, n - |own|);
      k := rest + 1;
      assert schedule[..k][1..] == schedule[1..][..rest];
    }
  }

  lemma {:induction false} TraceGrows(schedule: Schedule, i: nat, j: nat, k: nat)
    requires j <= k <= |schedule|
    ensures |Trace(schedule[..j], i)| <= |Trace(schedule[..k], i)|
  {
    if j > 0 {
      assert schedule[..j][1..] == schedule[1..][..j - 1] && schedule[..k][1..] == schedule[1..][..k - 1];
      TraceGrows(schedule[1..], i, j - 1, k - 1);
    }
  }

  lemma TraceOrder(schedule: Schedule, i: nat, m: nat)
    requires m + 1 < |Trace(schedule, i)| && Trace(schedule, i)[m] == TakeBuild && Trace(schedule, i)[m + 1] == BuildPassed
    ensures BuiltIn(schedule, i)
  {
    var j := TraceAt(schedule, i, m);
    var k := TraceAt(schedule, i, m + 1);
    if k <= j { TraceGrows(schedule, i, k, j); }
  }

  lemma BuiltPrefix(t: Test, trace: seq<Action>)
    requires Built(t) <= trace
    ensures |BuildTaken(t)| < |trace| && trace[|BuildTaken(t)| - 1] == TakeBuild && trace[|BuildTaken(t)|] == BuildPassed
  {
    assert Built(t)[|BuildTaken(t)|] == BuildPassed && Built(t)[|BuildTaken(t)| - 1] == TakeBuild;
  }

  lemma OverIsBuilt(t: Test, trace: seq<Action>, w: Worker)
    requires Over(t, trace, w) && (w.status == Pass || w.repeats != [])
    ensures Built(t) <= trace
  {
  }

  /** Nothing runs that was not built first: a running test, a test that passed and a test with any
      reported repetition took the build lock and had its build pass, in this order. */
  lemma BuiltBeforeRun(tests: seq<Test>, jobs: map<nat, nat>, schedule: Schedule, i: nat)
    requires Admitted(tests, jobs) && Valid(Init(tests, jobs), schedule) && i < |tests|
    requires var w := Reached(Init(tests, jobs), schedule).workers[i];
             w.phase == Running || (w.phase == Finished && (w.status == Pass || w.repeats != []))
    ensures BuiltIn(schedule, i)
  {
    var w, trace := Reached(Init(tests, jobs), schedule).workers[i], Trace(schedule, i);
    EveryPass(tests, jobs, schedule, i);
    if w.phase == Finished { OverIsBuilt(tests[i], trace, w); }
    BuiltPrefix(tests[i], trace);
    TraceOrder(schedule, i, |BuildTaken(tests[i])| - 1);
  }
}
