/** The QA scheduler of tools/qa.py: worker threads of any number of scheduler processes take
    named exclusive file locks in sorted order, then one build lock per process, run the test,
    and release the file locks in reverse.

    Every interleaving is a schedule: a sequence of (worker, action) pairs, each enabled when
    it happens. File locks live in one table shared by all processes (`flocks`), the build
    lock of a process in `build`. */
module QaScheduler {
  import opened Ordering

  // ---- the lock list of one test ----

  datatype Resource = Resource(exclusive: bool, hostWide: bool)

  type Registry = map<string, Resource>

  /** The lock file: host-wide resources lock below the runtime directory, the others below
      the checkout the scheduler runs in. */
  datatype LockId = HostLock(name: string) | TreeLock(root: nat, name: string)

  function LockFile(registry: Registry, root: nat, resource: string): (lock: LockId)
    requires resource in registry
    ensures lock.name == resource
  {
    if registry[resource].hostWide then HostLock(resource) else TreeLock(root, resource)
  }

  /** Two schedulers contend for a lock file exactly when they mean the same resource, and it is
      host-wide or they run in the same checkout. */
  lemma ContendExactly(registry: Registry, root: nat, other: nat, a: string, b: string)
    requires a in registry && b in registry
    ensures LockFile(registry, root, a) == LockFile(registry, other, b) <==>
            a == b && (registry[a].hostWide || root == other)
  {
  }

  /** Lock names strictly increase: the order every worker takes its locks in. */
  predicate Ascending(locks: seq<LockId>) {
    forall i, j :: 0 <= i < j < |locks| ==> Less(locks[i].name, locks[j].name)
  }

  /** What resource_locks takes after the first k names of its sorted list. */
  function Taken(registry: Registry, root: nat, order: seq<string>): seq<LockId>
    requires forall i :: 0 <= i < |order| ==> order[i] in registry
  {
    if order == [] then []
    else
      var last := order[|order| - 1];
      Taken(registry, root, order[..|order| - 1])
      + (if registry[last].exclusive then [LockFile(registry, root, last)] else [])
  }

  /** From a strictly ascending list, the locks ascend and are those of its exclusive names. */
  lemma {:induction false} TakenAscends(registry: Registry, root: nat, order: seq<string>)
    requires forall i :: 0 <= i < |order| ==> order[i] in registry
    requires forall i, j :: 0 <= i < j < |order| ==> Less(order[i], order[j])
    ensures Ascending(Taken(registry, root, order))
    ensures forall l :: l in Taken(registry, root, order) <==>
              l.name in order && registry[l.name].exclusive && l == LockFile(registry, root, l.name)
  {
    if order != [] {
      var n := |order| - 1;
      TakenAscends(registry, root, order[..n]);
      var before := Taken(registry, root, order[..n]);
      assert order == order[..n] + [order[n]];
      forall i | 0 <= i < |before| ensures Less(before[i].name, order[n]) {
        assert before[i] in before;
      }
    }
  }

  /** The locks are those of the exclusive resources a test names, in strictly increasing name order. */
  ghost predicate Plans(registry: Registry, root: nat, resources: seq<string>, locks: seq<LockId>)
    requires forall r :: r in resources ==> r in registry
  {
    && Ascending(locks)
    && (forall l :: l in locks <==>
          l.name in resources && registry[l.name].exclusive && l == LockFile(registry, root, l.name))
  }

  predicate Listed(registry: Registry, order: seq<string>) {
    forall i :: 0 <= i < |order| ==> order[i] in registry
  }

  lemma PlannedOf(registry: Registry, root: nat, resources: seq<string>, order: seq<string>)
    requires forall r :: r in resources ==> r in registry
    requires Distinct(resources) && order == Sort(resources, TextLeq) && Listed(registry, order)
    ensures Plans(registry, root, resources, Taken(registry, root, order))
  {
    SortStrict(resources);
    TakenAscends(registry, root, order);
  }

  /** resource_locks walks the sorted resources and skips the shared ones. */
  method LockPlan(registry: Registry, root: nat, resources: seq<string>) returns (locks: seq<LockId>)
    requires forall r :: r in resources ==> r in registry
    requires Distinct(resources)
    ensures Plans(registry, root, resources, locks)
  {
    var order := Sort(resources, TextLeq);
    assert Listed(registry, order) by { SortStrict(resources); }
    locks := [];
    for k := 0 to |order|
      invariant locks == Taken(registry, root, order[..k])
    {
      assert order[..k + 1][..k] == order[..k];
      if registry[order[k]].exclusive {
        locks := locks + [LockFile(registry, root, order[k])];
      }
    }
    assert order[..|order|] == order;
    PlannedOf(registry, root, resources, order);
  }

  // ---- the protocol ----

  datatype Status = Pass | Fail | Skip | Blocked | Error

  datatype Test = Test(process: nat, locks: seq<LockId>, repeat: nat, skipPolicy: bool)

  datatype Phase = Queued | Acquiring | Waiting | Building | Running | Releasing | Finished

  datatype Worker = Worker(phase: Phase, streams: seq<LockId>, repeats: seq<Status>, status: Status)

  datatype State = State(
    tests: seq<Test>,
    jobs: map<nat, nat>,
    workers: seq<Worker>,
    flocks: map<LockId, nat>,
    build: map<nat, nat>)

  datatype Action =
    | Start | Refuse
    | Acquire | Enter
    | TakeBuild | BuildPassed | BuildFailed
    | Repeat(outcome: Status) | Leave
    | Release | Finish
    | Fault

  /** Tests come from a validated registry and every process runs at least one thread. */
  predicate Admitted(tests: seq<Test>, jobs: map<nat, nat>) {
    forall i :: 0 <= i < |tests| ==>
      && Ascending(tests[i].locks)
      && tests[i].process in jobs && jobs[tests[i].process] > 0
  }

  function Init(tests: seq<Test>, jobs: map<nat, nat>): (s: State) {
    State(tests, jobs, seq(|tests|, _ => Worker(Queued, [], [], Pass)), map[], map[])
  }

  predicate Active(w: Worker) { w.phase != Queued && w.phase != Finished }

  function ActiveIn(s: State, process: nat): set<nat>
    requires |s.workers| == |s.tests|
  {
    set i | 0 <= i < |s.workers| && s.tests[i].process == process && Active(s.workers[i])
  }

  /** The pool starts tests in submission order and keeps at most `jobs` of them active. */
  predicate SlotFree(s: State, i: nat)
    requires |s.workers| == |s.tests| && i < |s.tests|
  {
    && (forall j :: 0 <= j < i && s.tests[j].process == s.tests[i].process ==> s.workers[j].phase != Queued)
    && s.tests[i].process in s.jobs
    && |ActiveIn(s, s.tests[i].process)| < s.jobs[s.tests[i].process]
  }

  /** What the worker itself must have reached for a step. */
  predicate Ready(t: Test, w: Worker, a: Action) {
    match a
    case Start => w.phase == Queued
    case Refuse => w.phase == Queued
    case Acquire => w.phase == Acquiring && |w.streams| < |t.locks|
    case Enter => w.phase == Acquiring && |w.streams| == |t.locks|
    case TakeBuild => w.phase == Waiting
    case BuildPassed => w.phase == Building
    case BuildFailed => w.phase == Building
    case Repeat(outcome) => w.phase == Running && |w.repeats| < t.repeat && outcome in {Pass, Fail, Error}
    case Leave => w.phase == Running && |w.repeats| == t.repeat
    case Release => w.phase == Releasing && w.streams != []
    case Finish => w.phase == Releasing && w.streams == []
    case Fault => w.phase in {Acquiring, Waiting, Building, Running}
  }

  /** A step also waits for a free slot, a free file lock or the free build lock. */
  predicate Enabled(s: State, i: nat, a: Action)
    requires |s.workers| == |s.tests| && i < |s.tests|
  {
    var w, t := s.workers[i], s.tests[i];
    && Ready(t, w, a)
    && (a in {Start, Refuse} ==> SlotFree(s, i))
    && (a == Acquire ==> t.locks[|w.streams|] !in s.flocks)
    && (a == TakeBuild ==> t.process !in s.build)
  }

  /** The worker after its step. */
  function After(t: Test, w: Worker, a: Action): Worker
    requires Ready(t, w, a)
  {
    match a
    case Start => w.(phase := Acquiring)
    case Refuse => w.(phase := Finished, status := if t.skipPolicy then Skip else Blocked)
    case Acquire => w.(streams := w.streams + [t.locks[|w.streams|]])
    case Enter => w.(phase := Waiting)
    case TakeBuild => w.(phase := Building)
    case BuildPassed => w.(phase := Running)
    case BuildFailed => w.(phase := Releasing, status := Error)
    case Repeat(outcome) =>
      var done := w.(repeats := w.repeats + [outcome]);
      if outcome == Pass then done else done.(phase := Releasing, status := outcome)
    case Leave => w.(phase := Releasing)
    case Release => w.(streams := w.streams[..|w.streams| - 1])
    case Finish => w.(phase := Finished)
    case Fault => w.(phase := Releasing, status := Error, repeats := [])
  }

  function Next(s: State, i: nat, a: Action): (n: State)
    requires |s.workers| == |s.tests| && i < |s.tests| && Enabled(s, i, a)
  {
    var w, t := s.workers[i], s.tests[i];
    s.(workers := s.workers[i := After(t, w, a)],
       flocks := if a == Acquire then s.flocks[t.locks[|w.streams|] := i]
                 else if a == Release then s.flocks - {w.streams[|w.streams| - 1]}
                 else s.flocks,
       build := if a == TakeBuild then s.build[t.process := i]
                else if w.phase == Building then s.build - {t.process}
                else s.build)
  }

  type Schedule = seq<(nat, Action)>

  /** Every step of the schedule is enabled when its turn comes. */
  predicate Valid(s: State, schedule: Schedule)
    requires |s.workers| == |s.tests|
    decreases schedule
  {
    schedule == [] ||
    (var (i, a) := schedule[0];
     i < |s.tests| && Enabled(s, i, a) && Valid(Next(s, i, a), schedule[1..]))
  }

  function Reached(s: State, schedule: Schedule): (r: State)
    requires |s.workers| == |s.tests| && Valid(s, schedule)
    ensures |r.workers| == |r.tests| && r.tests == s.tests && r.jobs == s.jobs
    decreases schedule
  {
    if schedule == [] then s
    else Reached(Next(s, schedule[0].0, schedule[0].1), schedule[1..])
  }

  // ---- what every step keeps ----

  predicate WorkerOk(t: Test, w: Worker) {
    && w.streams <= t.locks
    && (w.phase in {Queued, Finished} ==> w.streams == [])
    && (w.phase in {Waiting, Building, Running} ==> w.streams == t.locks)
    && (w.phase !in {Releasing, Finished} ==> w.status == Pass)
    && (w.phase in {Queued, Acquiring, Waiting, Building} ==> w.repeats == [])
    && RepeatsOk(t, w)
  }

  /** A test reports PASS exactly when all its repetitions ran and passed; the first failure
      ends the repetitions and is the reported status. */
  predicate RepeatsOk(t: Test, w: Worker) {
    && |w.repeats| <= t.repeat
    && (w.status == Pass ==> forall k :: 0 <= k < |w.repeats| ==> w.repeats[k] == Pass)
    && (w.status == Pass && w.phase in {Releasing, Finished} ==> |w.repeats| == t.repeat)
    && (w.status == Fail ==> w.repeats != [] && w.repeats[|w.repeats| - 1] == Fail)
    && (w.status == Error ==> w.repeats == [] || w.repeats[|w.repeats| - 1] == Error)
    && (w.status in {Skip, Blocked} ==> w.repeats == [] && (w.status == Skip <==> t.skipPolicy))
    && (forall k :: 0 <= k < |w.repeats| - 1 ==> w.repeats[k] == Pass)
  }

  ghost predicate LocksOk(s: State)
    requires |s.workers| == |s.tests|
  {
    && (forall l :: l in s.flocks ==> s.flocks[l] < |s.workers| && l in s.workers[s.flocks[l]].streams)
    && (forall i, k :: 0 <= i < |s.workers| && 0 <= k < |s.workers[i].streams| ==>
          s.workers[i].streams[k] in s.flocks && s.flocks[s.workers[i].streams[k]] == i)
  }

  ghost predicate BuildOk(s: State)
    requires |s.workers| == |s.tests|
  {
    && (forall p :: p in s.build ==>
          && s.build[p] < |s.workers| && s.tests[s.build[p]].process == p
          && s.workers[s.build[p]].phase == Building)
    && (forall i :: 0 <= i < |s.workers| && s.workers[i].phase == Building ==>
          s.tests[i].process in s.build && s.build[s.tests[i].process] == i)
  }

  ghost predicate PoolOk(s: State)
    requires |s.workers| == |s.tests|
  {
    forall p :: p in s.jobs ==> |ActiveIn(s, p)| <= s.jobs[p]
  }

  ghost predicate Inv(s: State) {
    && |s.workers| == |s.tests|
    && Admitted(s.tests, s.jobs)
    && (forall i :: 0 <= i < |s.workers| ==> WorkerOk(s.tests[i], s.workers[i]))
    && LocksOk(s)
    && BuildOk(s)
    && PoolOk(s)
  }

  lemma InitInv(tests: seq<Test>, jobs: map<nat, nat>)
    requires Admitted(tests, jobs)
    ensures Inv(Init(tests, jobs))
  {
    var s := Init(tests, jobs);
    forall p | p in jobs ensures |ActiveIn(s, p)| <= jobs[p] { assert ActiveIn(s, p) == {}; }
  }

  lemma AscendingDistinct(locks: seq<LockId>, i: nat, j: nat)
    requires Ascending(locks) && i < j < |locks|
    ensures locks[i] != locks[j]
  {
    CompareAntisymmetric(locks[i].name, locks[j].name);
  }

  lemma StepWorker(t: Test, w: Worker, a: Action)
    requires WorkerOk(t, w) && Ready(t, w, a)
    ensures WorkerOk(t, After(t, w, a))
  {
  }

  /** Only acquiring and releasing touch the file locks. */
  lemma LockFrame(s: State, i: nat, a: Action)
    requires |s.workers| == |s.tests| && i < |s.tests| && Enabled(s, i, a)
    requires a != Acquire && a != Release
    ensures var n := Next(s, i, a);
            && n.flocks == s.flocks
            && |n.workers| == |s.workers|
            && forall j :: 0 <= j < |s.workers| ==> n.workers[j].streams == s.workers[j].streams
  {
  }

  lemma AcquireLocks(s: State, i: nat)
    requires |s.workers| == |s.tests| && i < |s.tests| && Enabled(s, i, Acquire) && LocksOk(s)
    ensures LocksOk(Next(s, i, Acquire))
  {
    var n := Next(s, i, Acquire);
    var lock := s.tests[i].locks[|s.workers[i].streams|];
    forall l | l in n.flocks
      ensures n.flocks[l] < |n.workers| && l in n.workers[n.flocks[l]].streams
    {
      if l == lock {
        assert n.workers[i].streams[|s.workers[i].streams|] == lock;
      } else {
        assert l in s.workers[s.flocks[l]].streams;
      }
    }
  }

  lemma ReleaseLocks(s: State, i: nat)
    requires |s.workers| == |s.tests| && i < |s.tests| && Enabled(s, i, Release) && LocksOk(s)
    requires s.workers[i].streams <= s.tests[i].locks && Ascending(s.tests[i].locks)
    ensures LocksOk(Next(s, i, Release))
  {
    var n := Next(s, i, Release);
    var last := |s.workers[i].streams| - 1;
    forall j, k | 0 <= j < |n.workers| && 0 <= k < |n.workers[j].streams|
      ensures n.workers[j].streams[k] in n.flocks && n.flocks[n.workers[j].streams[k]] == j
    {
      assert n.workers[j].streams[k] == s.workers[j].streams[k];
      if j == i { AscendingDistinct(s.tests[i].locks, k, last); }
    }
    forall l | l in n.flocks
      ensures n.flocks[l] < |n.workers| && l in n.workers[n.flocks[l]].streams
    {
      var k :| 0 <= k < |s.workers[s.flocks[l]].streams| && s.workers[s.flocks[l]].streams[k] == l;
      if s.flocks[l] == i { assert n.workers[i].streams[k] == l; }
    }
  }

  lemma StepLocks(s: State, i: nat, a: Action)
    requires |s.workers| == |s.tests| && i < |s.tests| && Enabled(s, i, a) && LocksOk(s)
    requires s.workers[i].streams <= s.tests[i].locks && Ascending(s.tests[i].locks)
    ensures LocksOk(Next(s, i, a))
  {
    if a == Acquire {
      AcquireLocks(s, i);
    } else if a == Release {
      ReleaseLocks(s, i);
    } else {
      LockFrame(s, i, a);
    }
  }

  /** What a step does to the build lock and to being active. */
  lemma BuildFrame(s: State, i: nat, a: Action)
    requires |s.workers| == |s.tests| && i < |s.tests| && Enabled(s, i, a)
    ensures var n, p, w := Next(s, i, a), s.tests[i].process, s.workers[i];
            && n.tests == s.tests && n.jobs == s.jobs && |n.workers| == |s.workers|
            && (forall j :: 0 <= j < |s.workers| && j != i ==> n.workers[j] == s.workers[j])
            && n.build == (if n.workers[i].phase == Building && w.phase != Building then s.build[p := i]
                           else if w.phase == Building then s.build - {p} else s.build)
            && (n.workers[i].phase == Building ==> p !in s.build && w.phase != Building)
            && (Active(n.workers[i]) ==> Active(w) || a == Start)
  {
  }

  lemma StepBuild(s: State, i: nat, a: Action)
    requires |s.workers| == |s.tests| && i < |s.tests| && Enabled(s, i, a) && BuildOk(s)
    ensures BuildOk(Next(s, i, a))
  {
    BuildFrame(s, i, a);
  }

  lemma StepPool(s: State, i: nat, a: Action)
    requires |s.workers| == |s.tests| && i < |s.tests| && Enabled(s, i, a) && PoolOk(s)
    ensures PoolOk(Next(s, i, a))
  {
    BuildFrame(s, i, a);
    var n := Next(s, i, a);
    forall p | p in n.jobs ensures |ActiveIn(n, p)| <= n.jobs[p] {
      PoolFrame(s, n, i, p);
      if a == Start && s.tests[i].process == p {
        SubsetSize(ActiveIn(n, p), ActiveIn(s, p) + {i});
      } else {
        SubsetSize(ActiveIn(n, p), ActiveIn(s, p));
      }
    }
  }

  lemma PoolFrame(s: State, n: State, i: nat, p: nat)
    requires |s.workers| == |s.tests| && i < |s.tests|
    requires n.tests == s.tests && |n.workers| == |s.workers|
    requires forall j :: 0 <= j < |s.workers| && j != i ==> n.workers[j] == s.workers[j]
    ensures ActiveIn(n, p) <= ActiveIn(s, p) + {i}
    ensures s.tests[i].process != p || (Active(n.workers[i]) ==> Active(s.workers[i])) ==>
              ActiveIn(n, p) <= ActiveIn(s, p)
  {
  }

  lemma SubsetSize(a: set<nat>, b: set<nat>)
    requires a <= b
    ensures |a| <= |b|
  {
    assert b == a + (b - a);
  }

  lemma StepInv(s: State, i: nat, a: Action)
    requires Inv(s) && i < |s.tests| && Enabled(s, i, a)
    ensures Inv(Next(s, i, a))
  {
    StepWorker(s.tests[i], s.workers[i], a);
    StepLocks(s, i, a);
    StepBuild(s, i, a);
    StepPool(s, i, a);
  }

  lemma {:induction false} ReachedInv(s: State, schedule: Schedule)
    requires Inv(s) && Valid(s, schedule)
    ensures Inv(Reached(s, schedule))
    decreases schedule
  {
    if schedule != [] {
      StepInv(s, schedule[0].0, schedule[0].1);
      ReachedInv(Next(s, schedule[0].0, schedule[0].1), schedule[1..]);
    }
  }

  // ---- safety over every run ----

  /** The part of a test that its exclusive resources protect: building and running it. */
  predicate InUse(w: Worker) { w.phase in {Building, Running} }

  predicate Excluded(s: State, i: nat, j: nat)
    requires |s.workers| == |s.tests| && i < |s.tests| && j < |s.tests|
  {
    && (InUse(s.workers[i]) && InUse(s.workers[j]) ==> forall l :: l in s.tests[i].locks ==> l !in s.tests[j].locks)
    && (s.workers[i].phase == Building && s.workers[j].phase == Building ==> s.tests[i].process != s.tests[j].process)
  }

  lemma LocksExclude(s: State, i: nat, j: nat)
    requires |s.workers| == |s.tests| && i < j < |s.tests| && LocksOk(s) && BuildOk(s)
    requires WorkerOk(s.tests[i], s.workers[i]) && WorkerOk(s.tests[j], s.workers[j])
    ensures Excluded(s, i, j)
  {
    if InUse(s.workers[i]) && InUse(s.workers[j]) {
      forall l | l in s.tests[i].locks ensures l !in s.tests[j].locks {
        assert l in s.workers[i].streams;
        assert s.flocks[l] == i;
      }
    }
  }

  /** In every reachable state two tests sharing an exclusive resource are never in use at
      once, at most one test of a process builds, and the pool bound holds. */
  lemma MutualExclusion(tests: seq<Test>, jobs: map<nat, nat>, schedule: Schedule, i: nat, j: nat)
    requires Admitted(tests, jobs) && Valid(Init(tests, jobs), schedule)
    requires i < j < |tests|
    ensures Excluded(Reached(Init(tests, jobs), schedule), i, j)
    ensures forall p :: p in jobs ==> |ActiveIn(Reached(Init(tests, jobs), schedule), p)| <= jobs[p]
  {
    InitInv(tests, jobs);
    ReachedInv(Init(tests, jobs), schedule);
    LocksExclude(Reached(Init(tests, jobs), schedule), i, j);
  }

  /** Nobody overtakes: of the tests of one process, none has started while an earlier one waits. */
  predicate InOrder(s: State)
    requires |s.workers| == |s.tests|
  {
    forall j, i :: 0 <= j < i < |s.tests| && s.tests[j].process == s.tests[i].process && s.workers[j].phase == Queued ==>
      s.workers[i].phase == Queued
  }

  lemma {:induction false} StartsInOrder(s: State, schedule: Schedule)
    requires |s.workers| == |s.tests| && InOrder(s) && Valid(s, schedule)
    ensures InOrder(Reached(s, schedule))
    decreases schedule
  {
    if schedule != [] { StartsInOrder(Next(s, schedule[0].0, schedule[0].1), schedule[1..]); }
  }

  lemma NobodyOvertakes(tests: seq<Test>, jobs: map<nat, nat>, schedule: Schedule, j: nat, i: nat)
    requires Valid(Init(tests, jobs), schedule) && j < i < |tests| && tests[j].process == tests[i].process
    ensures var s := Reached(Init(tests, jobs), schedule);
            s.workers[j].phase == Queued ==> s.workers[i].phase == Queued
  {
    StartsInOrder(Init(tests, jobs), schedule);
  }

  /** So tests of any processes, with lists as planned, that both name an exclusive resource which is
      host-wide or under the same root never build or run at once. */
  lemma ResourceExclusion(registry: Registry, tests: seq<Test>, jobs: map<nat, nat>, schedule: Schedule, i: nat, j: nat,
                          mine: seq<string>, theirs: seq<string>, root: nat, other: nat, r: string)
    requires Admitted(tests, jobs) && Valid(Init(tests, jobs), schedule) && i < j < |tests|
    requires forall x :: x in mine || x in theirs ==> x in registry
    requires Plans(registry, root, mine, tests[i].locks) && Plans(registry, other, theirs, tests[j].locks)
    requires r in mine && r in theirs && registry[r].exclusive && (registry[r].hostWide || root == other)
    ensures var s := Reached(Init(tests, jobs), schedule);
            !(InUse(s.workers[i]) && InUse(s.workers[j]))
  {
    var l := LockFile(registry, root, r);
    assert l == LockFile(registry, other, r);
    assert l in tests[i].locks && l in tests[j].locks;
    MutualExclusion(tests, jobs, schedule, i, j);
  }

  /** What a finished test reports: all repetitions passed, or the last one is the first that did
      not; an error may also come before the first; an unmet requirement follows its policy. */
  predicate Reports(t: Test, w: Worker) {
    && (w.status == Pass ==> w.repeats == seq(t.repeat, _ => Pass))
    && (w.status == Fail ==>
          0 < |w.repeats| <= t.repeat && w.repeats == seq(|w.repeats| - 1, _ => Pass) + [Fail])
    && (w.status == Error && w.repeats != [] ==> w.repeats == seq(|w.repeats| - 1, _ => Pass) + [Error])
    && (w.status == Skip ==> w.repeats == [] && t.skipPolicy)
    && (w.status == Blocked ==> w.repeats == [] && !t.skipPolicy)
  }

  lemma FinishedReports(t: Test, w: Worker)
    requires WorkerOk(t, w) && w.phase == Finished
    ensures Reports(t, w)
  {
  }

  /** A finished test reports what its repetitions showed. */
  lemma FinishedStatus(tests: seq<Test>, jobs: map<nat, nat>, schedule: Schedule, i: nat)
    requires Admitted(tests, jobs) && Valid(Init(tests, jobs), schedule) && i < |tests|
    requires Reached(Init(tests, jobs), schedule).workers[i].phase == Finished
    ensures Reports(tests[i], Reached(Init(tests, jobs), schedule).workers[i])
  {
    InitInv(tests, jobs);
    ReachedInv(Init(tests, jobs), schedule);
    FinishedReports(tests[i], Reached(Init(tests, jobs), schedule).workers[i]);
  }

  // ---- no reachable state is stuck ----

  /** A worker in the acquisition loop whose next lock is held by someone. */
  predicate IsBlocked(s: State, i: nat)
    requires |s.workers| == |s.tests|
  {
    && i < |s.tests| && s.workers[i].phase == Acquiring
    && |s.workers[i].streams| < |s.tests[i].locks|
    && s.tests[i].locks[|s.workers[i].streams|] in s.flocks
  }

  function Wanted(s: State, i: nat): string
    requires |s.workers| == |s.tests| && IsBlocked(s, i)
  {
    s.tests[i].locks[|s.workers[i].streams|].name
  }

  /** The blocked workers waiting for a later name than worker i: they get fewer along every
      waits-for edge, which is why no cycle of waits exists. */
  function Later(s: State, i: nat): set<nat>
    requires |s.workers| == |s.tests| && IsBlocked(s, i)
  {
    set k | 0 <= k < |s.tests| && IsBlocked(s, k) && Less(Wanted(s, i), Wanted(s, k))
  }

  lemma HolderWantsLater(s: State, i: nat, j: nat)
    requires Inv(s) && IsBlocked(s, i)
    requires j == s.flocks[s.tests[i].locks[|s.workers[i].streams|]]
    requires IsBlocked(s, j)
    ensures Later(s, j) < Later(s, i)
  {
    var lock := s.tests[i].locks[|s.workers[i].streams|];
    var k :| 0 <= k < |s.workers[j].streams| && s.workers[j].streams[k] == lock;
    assert s.tests[j].locks[k] == lock;
    assert Less(Wanted(s, i), Wanted(s, j));
    assert j in Later(s, i);
    assert j !in Later(s, j) by { CompareAntisymmetric(Wanted(s, j), Wanted(s, j)); }
    forall m | m in Later(s, j) ensures m in Later(s, i) {
      LessTransitive(Wanted(s, i), Wanted(s, j), Wanted(s, m));
    }
  }

  /** From any active worker, following who waits for whom ends at a worker that can move
      without any fault. */
  lemma {:induction false} FollowWaits(s: State, i: nat) returns (m: nat, a: Action)
    requires Inv(s) && i < |s.tests| && Active(s.workers[i])
    ensures m < |s.tests| && Enabled(s, m, a) && a != Fault
    decreases if IsBlocked(s, i) then Later(s, i) else {}, IsBlocked(s, i), s.workers[i].phase == Waiting
  {
    var w, t := s.workers[i], s.tests[i];
    match w.phase {
      case Acquiring =>
        if IsBlocked(s, i) {
          var j := s.flocks[t.locks[|w.streams|]];
          if IsBlocked(s, j) { HolderWantsLater(s, i, j); }
          m, a := FollowWaits(s, j);
        } else {
          m, a := i, if |w.streams| < |t.locks| then Acquire else Enter;
        }
      case Waiting =>
        if t.process in s.build {
          m, a := s.build[t.process], BuildPassed;
        } else {
          m, a := i, TakeBuild;
        }
      case Building => m, a := i, BuildPassed;
      case Running => m, a := i, if |w.repeats| < t.repeat then Repeat(Pass) else Leave;
      case Releasing => m, a := i, if w.streams == [] then Finish else Release;
    }
  }

  predicate AllFinished(s: State) {
    forall i :: 0 <= i < |s.workers| ==> s.workers[i].phase == Finished
  }

  lemma {:induction false} FirstQueued(s: State, i: nat) returns (m: nat)
    requires |s.workers| == |s.tests| && i < |s.tests| && s.workers[i].phase == Queued
    ensures m <= i && s.workers[m].phase == Queued && s.tests[m].process == s.tests[i].process
    ensures forall j :: 0 <= j < m && s.tests[j].process == s.tests[m].process ==> s.workers[j].phase != Queued
    decreases i
  {
    if j :| 0 <= j < i && s.tests[j].process == s.tests[i].process && s.workers[j].phase == Queued {
      m := FirstQueued(s, j);
    } else {
      m := i;
    }
  }

  /** No reachable state is stuck: while a test is unfinished, some worker can take a step
      that is not a fault. */
  lemma NeverStuck(tests: seq<Test>, jobs: map<nat, nat>, schedule: Schedule) returns (m: nat, a: Action)
    requires Admitted(tests, jobs) && Valid(Init(tests, jobs), schedule)
    requires !AllFinished(Reached(Init(tests, jobs), schedule))
    ensures m < |tests| && a != Fault && Enabled(Reached(Init(tests, jobs), schedule), m, a)
  {
    InitInv(tests, jobs);
    ReachedInv(Init(tests, jobs), schedule);
    var s := Reached(Init(tests, jobs), schedule);
    if i :| 0 <= i < |s.tests| && Active(s.workers[i]) {
      m, a := FollowWaits(s, i);
    } else {
      var i :| 0 <= i < |s.tests| && s.workers[i].phase != Finished;
      m := FirstQueued(s, i);
      assert ActiveIn(s, s.tests[m].process) == {};
      a := Start;
    }
  }

  // ---- every run ends, with every lock released ----

  /** An upper bound on the steps a worker can still take. */
  function Rank(t: Test, w: Worker): nat {
    match w.phase
    case Finished => 0
    case Releasing => |w.streams| + 1
    case Running => |w.streams| + 2 + (if |w.repeats| <= t.repeat then t.repeat - |w.repeats| else 0)
    case Building => |t.locks| + t.repeat + 3
    case Waiting => |t.locks| + t.repeat + 4
    case Acquiring => 2 * |t.locks| + t.repeat + 5 - (if w.streams <= t.locks then |w.streams| else 0)
    case Queued => 2 * |t.locks| + t.repeat + 6
  }

  function TotalRank(tests: seq<Test>, workers: seq<Worker>): nat
    requires |tests| == |workers|
  {
    if tests == [] then 0 else Rank(tests[0], workers[0]) + TotalRank(tests[1..], workers[1..])
  }

  lemma {:induction false} RankDrops(tests: seq<Test>, workers: seq<Worker>, i: nat, w: Worker)
    requires |tests| == |workers| && i < |tests| && Rank(tests[i], w) < Rank(tests[i], workers[i])
    ensures TotalRank(tests, workers[i := w]) < TotalRank(tests, workers)
  {
    if i == 0 {
      assert workers[i := w][1..] == workers[1..];
    } else {
      assert workers[i := w][1..] == workers[1..][i - 1 := w];
      RankDrops(tests[1..], workers[1..], i - 1, w);
    }
  }

  lemma WorkerRank(t: Test, w: Worker, a: Action)
    requires WorkerOk(t, w) && Ready(t, w, a)
    ensures Rank(t, After(t, w, a)) < Rank(t, w)
  {
    StepWorker(t, w, a);
  }

  lemma StepRank(s: State, i: nat, a: Action)
    requires Inv(s) && i < |s.tests| && Enabled(s, i, a)
    ensures TotalRank(s.tests, Next(s, i, a).workers) < TotalRank(s.tests, s.workers)
  {
    var w := After(s.tests[i], s.workers[i], a);
    WorkerRank(s.tests[i], s.workers[i], a);
    RankDrops(s.tests, s.workers, i, w);
  }

  lemma {:induction false} RunLength(s: State, schedule: Schedule)
    requires Inv(s) && Valid(s, schedule)
    ensures |schedule| + TotalRank(s.tests, Reached(s, schedule).workers) <= TotalRank(s.tests, s.workers)
    decreases schedule
  {
    if schedule != [] {
      StepInv(s, schedule[0].0, schedule[0].1);
      StepRank(s, schedule[0].0, schedule[0].1);
      RunLength(Next(s, schedule[0].0, schedule[0].1), schedule[1..]);
    }
  }

  /** No worker can take a step, other than by a fault. */
  ghost predicate Stuck(s: State)
    requires |s.workers| == |s.tests|
  {
    forall m, a :: 0 <= m < |s.tests| && a != Fault ==> !Enabled(s, m, a)
  }

  lemma StuckIsFinished(tests: seq<Test>, jobs: map<nat, nat>, schedule: Schedule)
    requires Admitted(tests, jobs) && Valid(Init(tests, jobs), schedule)
    ensures Stuck(Reached(Init(tests, jobs), schedule)) ==> AllFinished(Reached(Init(tests, jobs), schedule))
  {
    if !AllFinished(Reached(Init(tests, jobs), schedule)) {
      var m, a := NeverStuck(tests, jobs, schedule);
    }
  }

  lemma FinishedIsFree(s: State)
    requires Inv(s) && AllFinished(s)
    ensures s.flocks == map[] && s.build == map[]
  {
  }

  /** Every run is finite, faults included; and a run that cannot continue without a fault has
      finished every test and left every file lock and build lock free. */
  lemma EveryRunEnds(tests: seq<Test>, jobs: map<nat, nat>, schedule: Schedule)
    requires Admitted(tests, jobs) && Valid(Init(tests, jobs), schedule)
    ensures |schedule| <= TotalRank(tests, Init(tests, jobs).workers)
    ensures var s := Reached(Init(tests, jobs), schedule);
            Stuck(s) ==> AllFinished(s) && s.flocks == map[] && s.build == map[]
  {
    var s := Reached(Init(tests, jobs), schedule);
    InitInv(tests, jobs);
    ReachedInv(Init(tests, jobs), schedule);
    RunLength(Init(tests, jobs), schedule);
    StuckIsFinished(tests, jobs, schedule);
    if Stuck(s) { FinishedIsFree(s); }
  }

  // ---- why resource lists must be free of duplicates ----

  function AcquireTimes(n: nat): Schedule { seq(n, _ => (0, Acquire)) }

  /** A lone worker can take n more locks. */
  predicate Takes(s: State, n: nat) {
    && |s.tests| == 1 && |s.workers| == 1 && s.workers[0].phase == Acquiring
    && s.workers[0].streams <= s.tests[0].locks && |s.workers[0].streams| + n <= |s.tests[0].locks|
    && s.flocks.Keys == (set l | l in s.workers[0].streams)
    && forall i, j :: 0 <= i < j < |s.workers[0].streams| + n ==> s.tests[0].locks[i] != s.tests[0].locks[j]
  }

  lemma TakeOne(s: State, n: nat)
    requires n > 0 && Takes(s, n)
    ensures Enabled(s, 0, Acquire) && Takes(Next(s, 0, Acquire), n - 1)
    ensures Next(s, 0, Acquire).tests == s.tests
    ensures Next(s, 0, Acquire).workers[0]
         == s.workers[0].(streams := s.workers[0].streams + [s.tests[0].locks[|s.workers[0].streams|]])
  {
    var streams := s.workers[0].streams;
    var lock := s.tests[0].locks[|streams|];
    assert lock !in streams;
    assert Enabled(s, 0, Acquire);
    assert Next(s, 0, Acquire).flocks.Keys == set l | l in streams + [lock];
  }

  lemma {:induction false} AcquireRun(s: State, n: nat)
    requires Takes(s, n)
    ensures Valid(s, AcquireTimes(n))
    ensures var r := Reached(s, AcquireTimes(n));
            Takes(r, 0) && r.workers[0] == s.workers[0].(streams := s.tests[0].locks[..|s.workers[0].streams| + n])
    decreases n
  {
    if n == 0 {
      assert AcquireTimes(n) == [];
    } else {
      TakeOne(s, n);
      var next := Next(s, 0, Acquire);
      AcquireRun(next, n - 1);
      assert AcquireTimes(n)[0] == (0, Acquire) && AcquireTimes(n)[1..] == AcquireTimes(n - 1);
      assert Valid(s, AcquireTimes(n)) && Reached(s, AcquireTimes(n)) == Reached(next, AcquireTimes(n - 1));
    }
  }

  /** A worker that holds the first k + 1 of its locks and wants one of them again. */
  predicate WaitsForItself(s: State, t: Test, k: nat)
    requires k + 1 < |t.locks|
  {
    && |s.workers| == 1 && s.tests == [t] && s.workers[0].phase == Acquiring
    && s.workers[0].streams == t.locks[..k + 1] && t.locks[k + 1] in s.flocks
  }

  lemma OnlyFault(s: State, t: Test, k: nat)
    requires k + 1 < |t.locks| && WaitsForItself(s, t, k)
    ensures !AllFinished(s) && forall a :: Enabled(s, 0, a) ==> a == Fault
  {
  }

  lemma StartAlone(t: Test)
    ensures var s0 := Init([t], map[t.process := 1]);
            && Enabled(s0, 0, Start)
            && Next(s0, 0, Start) == s0.(workers := [s0.workers[0].(phase := Acquiring)])
            && s0.workers[0].streams == [] && s0.flocks == map[]
  {
    var s0 := Init([t], map[t.process := 1]);
    assert ActiveIn(s0, t.process) == {};
  }

  lemma AcquiredTwice(s: State, t: Test, k: nat)
    requires k + 1 < |t.locks| && t.locks[k] == t.locks[k + 1]
    requires |s.workers| == 1 && s.tests == [t] && s.workers[0].phase == Acquiring
    requires s.workers[0].streams == t.locks[..k + 1]
    requires s.flocks.Keys == set l | l in s.workers[0].streams
    ensures WaitsForItself(s, t, k)
  {
    assert t.locks[..k + 1][k] == t.locks[k];
  }

  /** One test whose list names the same exclusive lock twice reaches a state in which it is
      unfinished and only a fault could move it: it waits for itself. */
  lemma DuplicateWaitsForItself(t: Test, k: nat)
    requires k + 1 < |t.locks| && t.locks[k] == t.locks[k + 1]
    requires forall i, j :: 0 <= i < j <= k ==> t.locks[i] != t.locks[j]
    ensures var s0, schedule := Init([t], map[t.process := 1]), [(0, Start)] + AcquireTimes(k + 1);
            && Valid(s0, schedule)
            && !AllFinished(Reached(s0, schedule))
            && forall a :: Enabled(Reached(s0, schedule), 0, a) ==> a == Fault
  {
    var s0 := Init([t], map[t.process := 1]);
    StartAlone(t);
    var s1 := Next(s0, 0, Start);
    AcquireRun(s1, k + 1);
    var schedule := [(0, Start)] + AcquireTimes(k + 1);
    assert schedule[1..] == AcquireTimes(k + 1);
    var r := Reached(s1, AcquireTimes(k + 1));
    AcquiredTwice(r, t, k);
    OnlyFault(r, t, k);
  }

  ghost predicate CanMove(s: State)
    requires |s.workers| == |s.tests|
  {
    AllFinished(s) || exists m, a :: 0 <= m < |s.tests| && a != Fault && Enabled(s, m, a)
  }

  /** A test alone on the machine, one thread: no schedule leads it into a stuck state. */
  ghost predicate NeverStuckAlone(t: Test) {
    forall schedule :: Valid(Init([t], map[t.process := 1]), schedule) ==>
                         CanMove(Reached(Init([t], map[t.process := 1]), schedule))
  }

  lemma {:induction false} FirstRepeat(locks: seq<LockId>, n: nat) returns (k: nat)
    requires n < |locks|
    requires forall i, j :: 0 <= i < j < |locks| ==> TextLeq(locks[i].name, locks[j].name)
    requires forall i, j :: 0 <= i < j < n ==> Less(locks[i].name, locks[j].name)
    requires !Ascending(locks)
    ensures k + 1 < |locks| && locks[k].name == locks[k + 1].name
    ensures forall i, j :: 0 <= i < j <= k ==> Less(locks[i].name, locks[j].name)
    decreases |locks| - n
  {
    if n == 0 {
      k := FirstRepeat(locks, 1);
    } else {
      CompareAntisymmetric(locks[n - 1].name, locks[n].name);
      if locks[n - 1].name == locks[n].name {
        k := n - 1;
      } else {
        forall i | 0 <= i < n ensures Less(locks[i].name, locks[n].name) {
          if i < n - 1 { LessTransitive(locks[i].name, locks[n - 1].name, locks[n].name); }
        }
        k := FirstRepeat(locks, n + 1);
      }
    }
  }

  lemma AscendingNeverStuck(t: Test)
    requires Ascending(t.locks)
    ensures NeverStuckAlone(t)
  {
    var s := Init([t], map[t.process := 1]);
    forall schedule | Valid(s, schedule) ensures CanMove(Reached(s, schedule)) {
      if !AllFinished(Reached(s, schedule)) {
        var m, a := NeverStuck([t], map[t.process := 1], schedule);
      }
    }
  }

  /** For a sorted lock list, freedom from duplicates is exactly what keeps a test from
      waiting for itself. */
  lemma DuplicateFreeIsExact(t: Test)
    requires forall i, j :: 0 <= i < j < |t.locks| ==> TextLeq(t.locks[i].name, t.locks[j].name)
    requires forall i, j :: 0 <= i < j < |t.locks| && t.locks[i].name == t.locks[j].name ==> t.locks[i] == t.locks[j]
    ensures NeverStuckAlone(t) <==> Ascending(t.locks)
  {
    if Ascending(t.locks) {
      AscendingNeverStuck(t);
    } else {
      var k := FirstRepeat(t.locks, 0);
      forall i, j | 0 <= i < j <= k ensures t.locks[i] != t.locks[j] {
        CompareAntisymmetric(t.locks[i].name, t.locks[j].name);
      }
      DuplicateWaitsForItself(t, k);
      assert Valid(Init([t], map[t.process := 1]), [(0, Start)] + AcquireTimes(k + 1));
    }
  }
}
