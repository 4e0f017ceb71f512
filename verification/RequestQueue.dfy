/** The server's request queue, src/server/request_queue.c: workers execute queued requests
    concurrently, but a serialization key stays active until its callback returns.

    Part one is the queue object itself, its bounded arrays shifted in place. Part two is the
    whole server: every section under the queue mutex is one step, so a run is any
    interleaving of submissions, a stop request, worker scans, completions and wakeups. */
module RequestQueue {
  import opened Sequences

  datatype Entry = Entry(work: nat, key: string)

  // ---- the two locked operations, as functions ----

  function Without<T>(s: seq<T>, i: nat): seq<T>
    requires i < |s|
  {
    s[..i] + s[i + 1..]
  }

  /** Index of the first entry whose key is not active, or the length. */
  function FirstFree(queue: seq<Entry>, active: seq<string>): (i: nat)
    ensures i <= |queue|
    ensures forall j :: 0 <= j < i ==> queue[j].key in active
    ensures i < |queue| ==> queue[i].key !in active
  {
    if queue == [] then 0
    else if queue[0].key !in active then 0
    else 1 + FirstFree(queue[1..], active)
  }

  /** Index of the first occurrence of a key, or the length. */
  function IndexOf(active: seq<string>, key: string): (i: nat)
    ensures i <= |active|
    ensures forall j :: 0 <= j < i ==> active[j] != key
    ensures i < |active| ==> active[i] == key
  {
    if active == [] then 0
    else if active[0] == key then 0
    else 1 + IndexOf(active[1..], key)
  }

  lemma FirstFreeUnique(queue: seq<Entry>, active: seq<string>, i: nat)
    requires i <= |queue|
    requires forall j :: 0 <= j < i ==> queue[j].key in active
    requires i < |queue| ==> queue[i].key !in active
    ensures FirstFree(queue, active) == i
  {
  }

  // ---- the object ----

  const EMPTY_ENTRY := Entry(0, "")

  /** Closes the gap at `at` by moving the later elements down one place, in the array. */
  method RemoveAt<T>(a: array<T>, count: nat, at: nat, blank: T)
    requires at < count <= a.Length
    modifies a
    ensures a[..count - 1] == Without(old(a[..count]), at)
    ensures a[count - 1] == blank
    ensures forall j :: count <= j < a.Length ==> a[j] == old(a[j])
  {
    ghost var was := a[..];
    var index := at;
    while index + 1 < count
      invariant at <= index < count
      invariant forall j :: 0 <= j < a.Length ==> a[j] == Moved(was, at, index, j)
    {
      a[index] := a[index + 1];
      index := index + 1;
    }
    a[count - 1] := blank;
    assert a[..count - 1] == Without(was[..count], at);
    assert was[..count] == old(a[..count]);
  }

  /** Element j after the elements behind `at`, up to index, moved down one place. */
  function Moved<T>(s: seq<T>, at: nat, index: nat, j: nat): T
    requires at <= index < |s| && j < |s|
  {
    if at <= j < index then s[j + 1] else s[j]
  }

  datatype Submission = Accepted | Full | NotAccepting

  class Queue {
    var queue: array<Entry>
    var active: array<string>
    var queueCount: nat
    var activeCount: nat
    var started: bool
    var stopping: bool

    ghost predicate Valid()
      reads this
    {
      queueCount <= queue.Length && activeCount <= active.Length
    }

    ghost function Waiting(): seq<Entry>
      requires Valid()
      reads this, queue
    {
      queue[..queueCount]
    }

    ghost function Keys(): seq<string>
      requires Valid()
      reads this, active
    {
      active[..activeCount]
    }

    constructor (capacity: nat, workers: nat)
      requires capacity > 0 && workers > 0
      ensures Valid() && fresh(queue) && fresh(active)
      ensures queue.Length == capacity && active.Length == workers
      ensures Waiting() == [] && Keys() == [] && !started && !stopping
    {
      queue := new Entry[capacity](_ => EMPTY_ENTRY);
      active := new string[workers](_ => "");
      queueCount, activeCount, started, stopping := 0, 0, false, false;
    }

    method KeyActive(key: string) returns (found: bool)
      requires Valid()
      ensures found <==> key in Keys()
    {
      var index := 0;
      while index < activeCount
        invariant index <= activeCount
        invariant key !in active[..index]
      {
        if active[index] == key { return true; }
        assert active[..index + 1] == active[..index] + [active[index]];
        index := index + 1;
      }
      return false;
    }

    /** Takes the first entry whose key is free and marks the key active. */
    method Select() returns (found: bool, entry: Entry)
      requires Valid() && activeCount < active.Length
      modifies this, queue, active
      ensures Valid() && queue == old(queue) && active == old(active)
      ensures started == old(started) && stopping == old(stopping)
      ensures var i := FirstFree(old(Waiting()), old(Keys()));
              && found == (i < |old(Waiting())|)
              && (found ==>
                    && entry == old(Waiting())[i]
                    && Waiting() == Without(old(Waiting()), i)
                    && Keys() == old(Keys()) + [entry.key])
              && (!found ==> Waiting() == old(Waiting()) && Keys() == old(Keys()))
    {
      entry := EMPTY_ENTRY;
      var index := 0;
      while index < queueCount
        invariant unchanged(this) && unchanged(queue) && unchanged(active)
        invariant index <= queueCount
        invariant forall j :: 0 <= j < index ==> queue[j].key in Keys()
      {
        var busy := KeyActive(queue[index].key);
        if !busy { break; }
        index := index + 1;
      }
      FirstFreeUnique(Waiting(), Keys(), index);
      if index == queueCount { return false, entry; }
      entry := queue[index];
      RemoveAt(queue, queueCount, index, EMPTY_ENTRY);
      queueCount := queueCount - 1;
      active[activeCount] := entry.key;
      activeCount := activeCount + 1;
      return true, entry;
    }

    /** Retires one occurrence of a key; a key that is not active changes nothing. */
    method Release(key: string)
      requires Valid()
      modifies this, active
      ensures Valid() && queue == old(queue) && active == old(active)
      ensures started == old(started) && stopping == old(stopping) && queueCount == old(queueCount)
      ensures var i := IndexOf(old(Keys()), key);
              Keys() == if i < |old(Keys())| then Without(old(Keys()), i) else old(Keys())
    {
      var index := 0;
      while index < activeCount && active[index] != key
        invariant unchanged(this) && unchanged(active)
        invariant index <= activeCount
        invariant key !in active[..index]
      {
        assert active[..index + 1] == active[..index] + [active[index]];
        index := index + 1;
      }
      IndexOfUnique(Keys(), key, index);
      if index == activeCount { return; }
      RemoveAt(active, activeCount, index, "");
      activeCount := activeCount - 1;
    }

    /** Accepts work at the tail; a full queue is refused as full, even when it is also stopped. */
    method Submit(work: nat, key: string) returns (r: Submission, depth: nat)
      requires Valid()
      modifies this, queue
      ensures Valid() && queue == old(queue) && active == old(active) && activeCount == old(activeCount)
      ensures started == old(started) && stopping == old(stopping)
      ensures r == Full <==> |old(Waiting())| == queue.Length
      ensures r == Accepted <==> old(started) && !old(stopping) && |old(Waiting())| < queue.Length
      ensures Waiting() == if r == Accepted then old(Waiting()) + [Entry(work, key)] else old(Waiting())
      ensures depth == if r == Accepted then |Waiting()| else 0
    {
      if !started || stopping || queueCount == queue.Length {
        return if queueCount == queue.Length then Full else NotAccepting, 0;
      }
      queue[queueCount] := Entry(work, key);
      queueCount := queueCount + 1;
      return Accepted, queueCount;
    }
  }

  lemma IndexOfUnique(active: seq<string>, key: string, i: nat)
    requires i <= |active|
    requires forall j :: 0 <= j < i ==> active[j] != key
    requires i < |active| ==> active[i] == key
    ensures IndexOf(active, key) == i
  {
  }

  // ---- the server ----

  datatype Worker = Ready | Asleep | Executing(entry: Entry) | Exited

  /** `submitted` and `done` record the accepted work and the completed work, in order. */
  datatype State = State(
    capacity: nat,
    queue: seq<Entry>,
    active: seq<string>,
    stopping: bool,
    workers: seq<Worker>,
    submitted: seq<Entry>,
    done: seq<Entry>)

  datatype Action = Submitted(entry: Entry) | Stop | Scan(w: nat) | Complete(w: nat) | Spurious(w: nat)

  function Init(capacity: nat, workers: nat): State {
    State(capacity, [], [], false, seq(workers, _ => Ready), [], [])
  }

  /** pthread_cond_broadcast: every sleeper will look again. */
  function Awake(workers: seq<Worker>): (woken: seq<Worker>)
    ensures |woken| == |workers|
  {
    seq(|workers|, i requires 0 <= i < |workers| => if workers[i] == Asleep then Ready else workers[i])
  }

  predicate Enabled(s: State, a: Action) {
    match a
    case Submitted(_) => !s.stopping && |s.queue| < s.capacity
    case Stop => true
    case Scan(w) => w < |s.workers| && s.workers[w] == Ready
    case Complete(w) => w < |s.workers| && s.workers[w].Executing?
    case Spurious(w) => w < |s.workers| && s.workers[w] == Asleep
  }

  /** The body of the worker loop between two waits, under the mutex. */
  function ScanStep(s: State, w: nat): State
    requires w < |s.workers| && s.workers[w] == Ready
  {
    if s.stopping && s.queue == [] then s.(workers := s.workers[w := Exited])
    else
      var i := FirstFree(s.queue, s.active);
      if i == |s.queue| then s.(workers := s.workers[w := Asleep])
      else
        s.(queue := Without(s.queue, i),
           active := s.active + [s.queue[i].key],
           workers := s.workers[w := Executing(s.queue[i])])
  }

  function CompleteStep(s: State, w: nat): State
    requires w < |s.workers| && s.workers[w].Executing?
  {
    var i := IndexOf(s.active, s.workers[w].entry.key);
    s.(active := if i < |s.active| then Without(s.active, i) else s.active,
       workers := Awake(s.workers[w := Ready]),
       done := s.done + [s.workers[w].entry])
  }

  function Next(s: State, a: Action): State
    requires Enabled(s, a)
  {
    match a
    case Submitted(entry) =>
      s.(queue := s.queue + [entry], submitted := s.submitted + [entry], workers := Awake(s.workers))
    case Stop => s.(stopping := true, workers := Awake(s.workers))
    case Scan(w) => ScanStep(s, w)
    case Complete(w) => CompleteStep(s, w)
    case Spurious(w) => s.(workers := s.workers[w := Ready])
  }

  predicate Valid(s: State, run: seq<Action>)
    decreases run
  {
    run == [] || (Enabled(s, run[0]) && Valid(Next(s, run[0]), run[1..]))
  }

  function Reached(s: State, run: seq<Action>): State
    requires Valid(s, run)
    decreases run
  {
    if run == [] then s else Reached(Next(s, run[0]), run[1..])
  }

  // ---- per-key views ----

  function ForKey(entries: seq<Entry>, key: string): seq<Entry> {
    if entries == [] then [] else Mine(entries[0], key) + ForKey(entries[1..], key)
  }

  function Mine(e: Entry, key: string): seq<Entry> { if e.key == key then [e] else [] }

  /** What one worker is executing for a key. */
  function Doing(w: Worker, key: string): seq<Entry> {
    if w.Executing? && w.entry.key == key then [w.entry] else []
  }

  function Current(workers: seq<Worker>, key: string): seq<Entry> {
    if workers == [] then [] else Doing(workers[0], key) + Current(workers[1..], key)
  }

  lemma ForKeyStep(a: seq<Entry>, b: seq<Entry>, key: string)
    requires a != []
    ensures ForKey(a + b, key) == Mine(a[0], key) + ForKey(a[1..] + b, key)
  {
    assert (a + b)[0] == a[0] && (a + b)[1..] == a[1..] + b;
  }

  lemma {:induction false} ForKeyConcat(a: seq<Entry>, b: seq<Entry>, key: string)
    ensures ForKey(a + b, key) == ForKey(a, key) + ForKey(b, key)
  {
    if a == [] {
      assert a + b == b;
    } else {
      ForKeyStep(a, b, key);
      ForKeyConcat(a[1..], b, key);
      Regroup(Mine(a[0], key), ForKey(a[1..], key), ForKey(b, key));
    }
  }

  lemma {:induction false} ForKeyEmpty(a: seq<Entry>, key: string)
    requires forall j :: 0 <= j < |a| ==> a[j].key != key
    ensures ForKey(a, key) == []
  {
    if a != [] { ForKeyEmpty(a[1..], key); }
  }

  lemma {:induction false} CurrentConcat(a: seq<Worker>, b: seq<Worker>, key: string)
    ensures Current(a + b, key) == Current(a, key) + Current(b, key)
  {
    if a == [] {
      assert a + b == b;
    } else {
      assert (a + b)[1..] == a[1..] + b;
      CurrentConcat(a[1..], b, key);
    }
  }

  lemma CurrentSplit(workers: seq<Worker>, w: nat, x: Worker, key: string)
    requires w < |workers|
    ensures Current(workers[w := x], key)
         == Current(workers[..w], key) + Doing(x, key) + Current(workers[w + 1..], key)
  {
    assert workers[w := x] == workers[..w] + ([x] + workers[w + 1..]);
    CurrentConcat(workers[..w], [x] + workers[w + 1..], key);
    assert ([x] + workers[w + 1..])[1..] == workers[w + 1..];
  }

  /** What worker w does is one part of what all workers do. */
  lemma CurrentOf(workers: seq<Worker>, w: nat, key: string)
    requires w < |workers|
    ensures Current(workers, key)
         == Current(workers[..w], key) + Doing(workers[w], key) + Current(workers[w + 1..], key)
  {
    assert workers[w := workers[w]] == workers;
    CurrentSplit(workers, w, workers[w], key);
  }

  lemma {:induction false} CurrentAwake(workers: seq<Worker>, key: string)
    ensures Current(Awake(workers), key) == Current(workers, key)
  {
    if workers != [] {
      assert Awake(workers)[1..] == Awake(workers[1..]);
      CurrentAwake(workers[1..], key);
    }
  }

  lemma {:induction false} CurrentHas(workers: seq<Worker>, w: nat, key: string)
    requires w < |workers| && Doing(workers[w], key) != []
    ensures |Current(workers, key)| >= 1
  {
    CurrentOf(workers, w, key);
  }

  /** Two workers at one key make two entries of current work. */
  lemma CurrentTwice(workers: seq<Worker>, v: nat, w: nat, key: string)
    requires v < w < |workers| && Doing(workers[v], key) != [] && Doing(workers[w], key) != []
    ensures |Current(workers, key)| >= 2
  {
    CurrentOf(workers, w, key);
    CurrentHas(workers[..w], v, key);
  }

  // ---- what every step keeps ----

  /** The active array lists exactly the keys being executed, each once; and the accepted work
      of a key is its completed, then its executing, then its waiting work. */
  ghost predicate KeyOk(s: State, key: string) {
    && |Current(s.workers, key)| == multiset(s.active)[key] <= 1
    && ForKey(s.submitted, key) == ForKey(s.done, key) + Current(s.workers, key) + ForKey(s.queue, key)
  }

  ghost predicate KeysOk(s: State) {
    forall key :: KeyOk(s, key)
  }

  /** A sleeper missed nothing: no entry is free, and an empty queue is still open. */
  predicate SleepOk(s: State) {
    && ((exists w :: 0 <= w < |s.workers| && s.workers[w] == Asleep) ==>
          FirstFree(s.queue, s.active) == |s.queue| && (s.stopping ==> s.queue != []))
    && ((exists w :: 0 <= w < |s.workers| && s.workers[w] == Exited) ==> s.stopping && s.queue == [])
  }

  ghost predicate Inv(s: State) {
    KeysOk(s) && SleepOk(s)
  }

  lemma {:induction false} NobodyWorks(n: nat, key: string)
    ensures Current(seq(n, _ => Ready), key) == []
    decreases n
  {
    if n > 0 {
      assert seq(n, _ => Ready)[1..] == seq(n - 1, _ => Ready);
      NobodyWorks(n - 1, key);
    }
  }

  lemma InitInv(capacity: nat, workers: nat)
    ensures Inv(Init(capacity, workers))
  {
    forall key ensures KeyOk(Init(capacity, workers), key) { NobodyWorks(workers, key); }
  }

  lemma WithoutCounts<T>(s: seq<T>, i: nat)
    requires i < |s|
    ensures multiset(s) == multiset(Without(s, i)) + multiset{s[i]}
  {
    assert s == s[..i] + [s[i]] + s[i + 1..];
  }

  /** Taking the first free entry takes the oldest one of its key. */
  lemma TakeOldest(queue: seq<Entry>, active: seq<string>, key: string)
    requires FirstFree(queue, active) < |queue|
    ensures var i := FirstFree(queue, active);
            ForKey(queue, key) == Mine(queue[i], key) + ForKey(Without(queue, i), key)
  {
    var i := FirstFree(queue, active);
    var front, back := ForKey(queue[..i], key), ForKey(queue[i + 1..], key);
    assert ForKey(queue, key) == front + (Mine(queue[i], key) + back) by { ForKeySplit(queue, i, key); }
    assert ForKey(Without(queue, i), key) == front + back by { ForKeyConcat(queue[..i], queue[i + 1..], key); }
    if queue[i].key == key { EarlierAreOthers(queue, active, key); }
    Swap(front, Mine(queue[i], key), back);
  }

  lemma EarlierAreOthers(queue: seq<Entry>, active: seq<string>, key: string)
    requires FirstFree(queue, active) < |queue| && queue[FirstFree(queue, active)].key == key
    ensures ForKey(queue[..FirstFree(queue, active)], key) == []
  {
    var i := FirstFree(queue, active);
    forall j | 0 <= j < i ensures queue[..i][j].key != key { assert queue[j].key in active; }
    ForKeyEmpty(queue[..i], key);
  }

  lemma Swap<T>(a: seq<T>, b: seq<T>, c: seq<T>)
    requires a == [] || b == []
    ensures a + (b + c) == b + (a + c)
  {
    if a == [] { assert a + (b + c) == b + c && a + c == c; } else { assert b + (a + c) == a + c && b + c == c; }
  }

  lemma ForKeySplit(queue: seq<Entry>, i: nat, key: string)
    requires i < |queue|
    ensures ForKey(queue, key) == ForKey(queue[..i], key) + (Mine(queue[i], key) + ForKey(queue[i + 1..], key))
  {
    var tail := [queue[i]] + queue[i + 1..];
    assert queue == queue[..i] + tail && tail[1..] == queue[i + 1..];
    ForKeyConcat(queue[..i], tail, key);
  }

  lemma MoveForward<T>(all: seq<T>, done: seq<T>, a: seq<T>, b: seq<T>, d: seq<T>, rest: seq<T>)
    requires d != [] ==> a == [] && b == []
    requires all == done + (a + [] + b) + (d + rest)
    ensures all == done + (a + d + b) + rest
  {
    if d == [] { assert d + rest == rest; }
  }

  lemma AppendCounts<T>(s: seq<T>, x: T, y: T)
    ensures multiset(s + [x])[y] == multiset(s)[y] + (if x == y then 1 else 0)
  {
    assert multiset(s + [x]) == multiset(s) + multiset{x};
  }

  /** The first free entry has a key that no worker is executing. */
  lemma FreeIsIdle(s: State, key: string)
    requires KeyOk(s, key) && FirstFree(s.queue, s.active) < |s.queue|
    requires s.queue[FirstFree(s.queue, s.active)].key == key
    ensures key !in s.active && Current(s.workers, key) == []
  {
    assert key !in s.active;
    assert multiset(s.active)[key] == 0;
  }

  lemma SelectKeepsCount(s: State, w: nat, key: string)
    requires KeyOk(s, key) && Enabled(s, Scan(w)) && FirstFree(s.queue, s.active) < |s.queue|
    ensures var e := s.queue[FirstFree(s.queue, s.active)];
            |Current(s.workers[w := Executing(e)], key)| == multiset(s.active + [e.key])[key] <= 1
  {
    var e := s.queue[FirstFree(s.queue, s.active)];
    var a, b := |Current(s.workers[..w], key)|, |Current(s.workers[w + 1..], key)|;
    assert |Current(s.workers, key)| == a + b by { CurrentOf(s.workers, w, key); }
    assert |Current(s.workers[w := Executing(e)], key)| == a + (if e.key == key then 1 else 0) + b by {
      CurrentSplit(s.workers, w, Executing(e), key);
    }
    AppendCounts(s.active, e.key, key);
    if e.key == key { FreeIsIdle(s, key); }
  }

  lemma SelectKeepsOrder(s: State, w: nat, key: string)
    requires KeyOk(s, key) && Enabled(s, Scan(w)) && FirstFree(s.queue, s.active) < |s.queue|
    ensures var i := FirstFree(s.queue, s.active);
            ForKey(s.submitted, key)
            == ForKey(s.done, key) + Current(s.workers[w := Executing(s.queue[i])], key) + ForKey(Without(s.queue, i), key)
  {
    var i := FirstFree(s.queue, s.active);
    var d := Doing(Executing(s.queue[i]), key);
    var a, b := Current(s.workers[..w], key), Current(s.workers[w + 1..], key);
    var rest := ForKey(Without(s.queue, i), key);
    assert Current(s.workers, key) == a + [] + b by { CurrentOf(s.workers, w, key); }
    assert ForKey(s.queue, key) == d + rest by { TakeOldest(s.queue, s.active, key); }
    assert d != [] ==> a == [] && b == [] by {
      if d != [] { FreeIsIdle(s, key); }
    }
    MoveForward(ForKey(s.submitted, key), ForKey(s.done, key), a, b, d, rest);
    CurrentSplit(s.workers, w, Executing(s.queue[i]), key);
  }

  lemma SelectKeepsKey(s: State, w: nat, key: string)
    requires KeyOk(s, key) && Enabled(s, Scan(w)) && FirstFree(s.queue, s.active) < |s.queue|
    ensures KeyOk(ScanStep(s, w), key)
  {
    SelectKeepsCount(s, w, key);
    SelectKeepsOrder(s, w, key);
  }

  /** What completing worker w changes, seen from one key. */
  lemma CompleteViews(s: State, w: nat, key: string)
    requires Enabled(s, Complete(w)) && s.workers[w].entry.key in s.active
    ensures var n, d := CompleteStep(s, w), Doing(s.workers[w], key);
            var a, b := Current(s.workers[..w], key), Current(s.workers[w + 1..], key);
            && Current(s.workers, key) == a + d + b
            && Current(n.workers, key) == a + [] + b
            && ForKey(n.done, key) == ForKey(s.done, key) + d
  {
    var e := s.workers[w].entry;
    CurrentOf(s.workers, w, key);
    CurrentAwake(s.workers[w := Ready], key);
    CurrentSplit(s.workers, w, Ready, key);
    ForKeyConcat(s.done, [e], key);
    assert [e][1..] == [];
  }

  lemma CompleteCount(s: State, w: nat, key: string)
    requires Enabled(s, Complete(w)) && s.workers[w].entry.key in s.active
    ensures multiset(CompleteStep(s, w).active)[key] == multiset(s.active)[key] - |Doing(s.workers[w], key)|
  {
    WithoutCounts(s.active, IndexOf(s.active, s.workers[w].entry.key));
  }

  lemma CompleteKeepsKey(s: State, w: nat, key: string)
    requires KeyOk(s, key) && Enabled(s, Complete(w)) && s.workers[w].entry.key in s.active
    ensures KeyOk(CompleteStep(s, w), key)
  {
    CompleteViews(s, w, key);
    CompleteCount(s, w, key);
    Retire(ForKey(s.submitted, key), ForKey(s.done, key),
           Current(s.workers[..w], key), Current(s.workers[w + 1..], key),
           Doing(s.workers[w], key), ForKey(s.queue, key));
  }

  lemma Retire<T>(all: seq<T>, done: seq<T>, a: seq<T>, b: seq<T>, d: seq<T>, rest: seq<T>)
    requires |a + d + b| <= 1 && |d| <= 1
    requires all == done + (a + d + b) + rest
    ensures all == (done + d) + (a + [] + b) + rest
    ensures |a + [] + b| == |a + d + b| - |d|
  {
    if d != [] {
      assert a == [] && b == [];
    } else {
      assert done + d == done;
    }
  }

  /** A worker that neither takes nor completes work changes no key. */
  lemma QuietKeepsKey(s: State, w: nat, x: Worker, key: string)
    requires KeyOk(s, key) && w < |s.workers| && !s.workers[w].Executing? && !x.Executing?
    ensures KeyOk(s.(workers := s.workers[w := x]), key)
  {
    assert s.workers[w := s.workers[w]] == s.workers;
    CurrentSplit(s.workers, w, x, key);
    CurrentSplit(s.workers, w, s.workers[w], key);
  }

  lemma SubmitKeepsKey(s: State, entry: Entry, key: string)
    requires KeyOk(s, key) && Enabled(s, Submitted(entry))
    ensures KeyOk(Next(s, Submitted(entry)), key)
  {
    CurrentAwake(s.workers, key);
    ForKeyConcat(s.submitted, [entry], key);
    ForKeyConcat(s.queue, [entry], key);
    Regroup(ForKey(s.done, key) + Current(s.workers, key), ForKey(s.queue, key), ForKey([entry], key));
  }

  lemma StepKey(s: State, a: Action, key: string)
    requires KeyOk(s, key) && Enabled(s, a)
    requires a.Complete? ==> s.workers[a.w].entry.key in s.active
    ensures KeyOk(Next(s, a), key)
  {
    match a {
      case Submitted(entry) => SubmitKeepsKey(s, entry, key);
      case Stop => CurrentAwake(s.workers, key);
      case Scan(w) =>
        if s.stopping && s.queue == [] {
          QuietKeepsKey(s, w, Exited, key);
        } else if FirstFree(s.queue, s.active) == |s.queue| {
          QuietKeepsKey(s, w, Asleep, key);
        } else {
          SelectKeepsKey(s, w, key);
        }
      case Complete(w) => CompleteKeepsKey(s, w, key);
      case Spurious(w) => QuietKeepsKey(s, w, Ready, key);
    }
  }

  lemma StepKeys(s: State, a: Action)
    requires Inv(s) && Enabled(s, a)
    ensures KeysOk(Next(s, a))
  {
    if a.Complete? { ExecutingIsActive(s, a.w); }
    forall key ensures KeyOk(Next(s, a), key) { StepKey(s, a, key); }
  }

  lemma ExecutingIsActive(s: State, w: nat)
    requires KeysOk(s) && w < |s.workers| && s.workers[w].Executing?
    ensures s.workers[w].entry.key in s.active
  {
    var key := s.workers[w].entry.key;
    CurrentHas(s.workers, w, key);
    assert KeyOk(s, key);
    assert key in multiset(s.active);
  }

  lemma StepSleep(s: State, a: Action)
    requires SleepOk(s) && Enabled(s, a)
    ensures SleepOk(Next(s, a))
  {
    var n := Next(s, a);
    if w :| 0 <= w < |n.workers| && n.workers[w] == Asleep && a.Scan? && w != a.w {
      assert s.workers[w] == Asleep;
    }
  }

  lemma StepInv(s: State, a: Action)
    requires Inv(s) && Enabled(s, a)
    ensures Inv(Next(s, a))
  {
    StepKeys(s, a);
    StepSleep(s, a);
  }

  lemma {:induction false} ReachedInv(s: State, run: seq<Action>)
    requires Inv(s) && Valid(s, run)
    ensures Inv(Reached(s, run))
    decreases run
  {
    if run != [] {
      StepInv(s, run[0]);
      ReachedInv(Next(s, run[0]), run[1..]);
    }
  }

  // ---- safety of every run ----

  /** Two workers never execute operations of the same key at once. */
  lemma KeyExclusion(capacity: nat, workers: nat, run: seq<Action>, v: nat, w: nat)
    requires Valid(Init(capacity, workers), run)
    requires var s := Reached(Init(capacity, workers), run);
             v < w < |s.workers| && s.workers[v].Executing? && s.workers[w].Executing?
    ensures var s := Reached(Init(capacity, workers), run);
            s.workers[v].entry.key != s.workers[w].entry.key
  {
    InitInv(capacity, workers);
    ReachedInv(Init(capacity, workers), run);
    var s := Reached(Init(capacity, workers), run);
    var key := s.workers[w].entry.key;
    assert KeyOk(s, key);
    if s.workers[v].entry.key == key { CurrentTwice(s.workers, v, w, key); }
  }

  /** Work of one key is executed in submission order, each accepted piece exactly once: what
      was accepted is what completed, then the one in execution, then what still waits. */
  lemma SubmissionOrder(capacity: nat, workers: nat, run: seq<Action>, key: string)
    requires Valid(Init(capacity, workers), run)
    ensures var s := Reached(Init(capacity, workers), run);
            && ForKey(s.submitted, key) == ForKey(s.done, key) + Current(s.workers, key) + ForKey(s.queue, key)
            && |Current(s.workers, key)| <= 1
  {
    InitInv(capacity, workers);
    ReachedInv(Init(capacity, workers), run);
    assert KeyOk(Reached(Init(capacity, workers), run), key);
  }

  /** The number of workers in execution, and so of active keys. */
  function Busy(workers: seq<Worker>): (n: nat)
    ensures n <= |workers|
  {
    if workers == [] then 0 else (if workers[0].Executing? then 1 else 0) + Busy(workers[1..])
  }

  lemma {:induction false} BusySplit(workers: seq<Worker>, w: nat, x: Worker)
    requires w < |workers|
    ensures Busy(workers[w := x]) == Busy(workers) - (if workers[w].Executing? then 1 else 0) + (if x.Executing? then 1 else 0)
    decreases workers
  {
    if w == 0 {
      assert workers[w := x][1..] == workers[1..];
    } else {
      assert workers[w := x][1..] == workers[1..][w - 1 := x];
      BusySplit(workers[1..], w - 1, x);
    }
  }

  lemma {:induction false} BusyAwake(workers: seq<Worker>)
    ensures Busy(Awake(workers)) == Busy(workers)
  {
    if workers != [] {
      assert Awake(workers)[1..] == Awake(workers[1..]);
      BusyAwake(workers[1..]);
    }
  }

  lemma {:induction false} NobodyBusy(n: nat)
    ensures Busy(seq(n, _ => Ready)) == 0
    decreases n
  {
    if n > 0 {
      assert seq(n, _ => Ready)[1..] == seq(n - 1, _ => Ready);
      NobodyBusy(n - 1);
    }
  }

  lemma StepBusy(s: State, a: Action)
    requires Inv(s) && Enabled(s, a) && |s.active| == Busy(s.workers)
    ensures |Next(s, a).active| == Busy(Next(s, a).workers) && |Next(s, a).workers| == |s.workers|
  {
    BusyAwake(s.workers);
    match a {
      case Submitted(_) =>
      case Stop =>
      case Scan(w) => BusySplit(s.workers, w, Next(s, a).workers[w]);
      case Complete(w) =>
        ExecutingIsActive(s, w);
        BusySplit(s.workers, w, Ready);
        BusyAwake(s.workers[w := Ready]);
      case Spurious(w) => BusySplit(s.workers, w, Ready);
    }
  }

  lemma {:induction false} ReachedBusy(s: State, run: seq<Action>)
    requires Inv(s) && Valid(s, run) && |s.active| == Busy(s.workers)
    ensures |Reached(s, run).active| == Busy(Reached(s, run).workers)
    ensures |Reached(s, run).workers| == |s.workers|
    decreases run
  {
    if run != [] {
      StepBusy(s, run[0]);
      StepInv(s, run[0]);
      ReachedBusy(Next(s, run[0]), run[1..]);
    }
  }

  /** The active array, sized one slot per worker, always has room for a scanning worker. */
  lemma ActiveFits(capacity: nat, workers: nat, run: seq<Action>, w: nat)
    requires Valid(Init(capacity, workers), run)
    requires Enabled(Reached(Init(capacity, workers), run), Scan(w))
    ensures |Reached(Init(capacity, workers), run).active| < workers
  {
    InitInv(capacity, workers);
    NobodyBusy(workers);
    ReachedBusy(Init(capacity, workers), run);
    var s := Reached(Init(capacity, workers), run);
    BusySplit(s.workers, w, Executing(EMPTY_ENTRY));
  }

  // ---- progress: no wakeup is lost ----

  lemma {:induction false} SomeoneBusy(workers: seq<Worker>)
    requires Busy(workers) > 0
    ensures exists w :: 0 <= w < |workers| && workers[w].Executing?
  {
    if !workers[0].Executing? {
      SomeoneBusy(workers[1..]);
      var w :| 0 <= w < |workers[1..]| && workers[1..][w].Executing?;
      assert workers[w + 1].Executing?;
    } else {
      assert workers[0].Executing?;
    }
  }

  /** With work waiting, or a stop pending, some worker can act: it is never the case that
      everyone sleeps through it. */
  lemma NoLostWakeup(capacity: nat, workers: nat, run: seq<Action>)
    requires workers > 0 && Valid(Init(capacity, workers), run)
    requires var s := Reached(Init(capacity, workers), run);
             s.queue != [] || (s.stopping && exists w :: 0 <= w < |s.workers| && s.workers[w] != Exited)
    ensures var s := Reached(Init(capacity, workers), run);
            exists w :: 0 <= w < |s.workers| && (s.workers[w] == Ready || s.workers[w].Executing?)
  {
    InitInv(capacity, workers);
    NobodyBusy(workers);
    ReachedInv(Init(capacity, workers), run);
    ReachedBusy(Init(capacity, workers), run);
    var s := Reached(Init(capacity, workers), run);
    if forall w :: 0 <= w < |s.workers| ==> s.workers[w] != Ready {
      if s.queue != [] {
        assert s.workers[0] != Exited;
        if !s.workers[0].Executing? {
          assert s.workers[0] == Asleep;
          assert s.queue[0].key in s.active;
          SomeoneBusy(s.workers);
        }
      }
    }
  }

  // ---- a stopped server drains ----

  function Looking(workers: seq<Worker>): (n: nat)
    ensures n <= |workers|
  {
    if workers == [] then 0 else (if workers[0] == Ready then 1 else 0) + Looking(workers[1..])
  }

  lemma {:induction false} LookingSplit(workers: seq<Worker>, w: nat, x: Worker)
    requires w < |workers|
    ensures Looking(workers[w := x]) == Looking(workers) - (if workers[w] == Ready then 1 else 0) + (if x == Ready then 1 else 0)
    decreases workers
  {
    if w == 0 {
      assert workers[w := x][1..] == workers[1..];
    } else {
      assert workers[w := x][1..] == workers[1..][w - 1 := x];
      LookingSplit(workers[1..], w - 1, x);
    }
  }

  /** Bounds the scans and completions left once submissions have ended. */
  function Left(s: State): nat {
    (2 * |s.queue| + Busy(s.workers)) * (|s.workers| + 1) + Looking(s.workers)
  }

  predicate WorkerStep(a: Action) { a.Scan? || a.Complete? }

  lemma ScanLeft(s: State, w: nat)
    requires Enabled(s, Scan(w))
    ensures Left(ScanStep(s, w)) < Left(s)
  {
    var n := ScanStep(s, w);
    BusySplit(s.workers, w, n.workers[w]);
    LookingSplit(s.workers, w, n.workers[w]);
    if n.workers[w].Executing? {
      assert 2 * |n.queue| + Busy(n.workers) == 2 * |s.queue| + Busy(s.workers) - 1;
      MultiplyLess(2 * |n.queue| + Busy(n.workers), |s.workers| + 1);
    }
  }

  lemma CompleteLeft(s: State, w: nat)
    requires Enabled(s, Complete(w))
    ensures Left(CompleteStep(s, w)) < Left(s)
  {
    var n := CompleteStep(s, w);
    BusySplit(s.workers, w, Ready);
    BusyAwake(s.workers[w := Ready]);
    assert 2 * |n.queue| + Busy(n.workers) == 2 * |s.queue| + Busy(s.workers) - 1;
    MultiplyLess(2 * |n.queue| + Busy(n.workers), |s.workers| + 1);
  }

  lemma StepLeft(s: State, a: Action)
    requires Enabled(s, a) && WorkerStep(a)
    ensures Left(Next(s, a)) < Left(s) && |Next(s, a).workers| == |s.workers|
  {
    match a {
      case Scan(w) => ScanLeft(s, w);
      case Complete(w) => CompleteLeft(s, w);
    }
  }

  lemma MultiplyLess(x: nat, size: nat)
    ensures (x + 1) * size == x * size + size
  {
  }

  lemma {:induction false} WorkerRun(s: State, run: seq<Action>)
    requires Valid(s, run) && forall k :: 0 <= k < |run| ==> WorkerStep(run[k])
    ensures |run| + Left(Reached(s, run)) <= Left(s)
    decreases run
  {
    if run != [] {
      StepLeft(s, run[0]);
      WorkerRun(Next(s, run[0]), run[1..]);
    }
  }

  /** Once stopping, worker steps run out after a bounded number; and when none is left every
      worker has exited, nothing waits, and all accepted work of every key has completed in
      submission order. */
  lemma StopDrains(capacity: nat, workers: nat, before: seq<Action>, after: seq<Action>)
    requires workers > 0 && Valid(Init(capacity, workers), before)
    requires Reached(Init(capacity, workers), before).stopping
    requires Valid(Reached(Init(capacity, workers), before), after)
    requires forall k :: 0 <= k < |after| ==> WorkerStep(after[k])
    ensures |after| <= Left(Reached(Init(capacity, workers), before))
    ensures var s := Reached(Reached(Init(capacity, workers), before), after);
            (forall w :: 0 <= w < |s.workers| ==> s.workers[w] != Ready && !s.workers[w].Executing?) ==>
              && (forall w :: 0 <= w < |s.workers| ==> s.workers[w] == Exited)
              && s.queue == []
              && forall key :: ForKey(s.submitted, key) == ForKey(s.done, key)
  {
    var s0 := Init(capacity, workers);
    var mid := Reached(s0, before);
    WorkerRun(mid, after);
    RunConcat(s0, before, after);
    StopStays(mid, after);
    var s := Reached(mid, after);
    InitInv(capacity, workers);
    ReachedInv(s0, before + after);
    if forall w :: 0 <= w < |s.workers| ==> s.workers[w] != Ready && !s.workers[w].Executing? {
      if s.queue != [] || exists w :: 0 <= w < |s.workers| && s.workers[w] != Exited {
        NoLostWakeup(capacity, workers, before + after);
      }
      forall key ensures ForKey(s.submitted, key) == ForKey(s.done, key) {
        assert KeyOk(s, key);
        IdleCurrent(s.workers, key);
      }
    }
  }

  lemma {:induction false} IdleCurrent(workers: seq<Worker>, key: string)
    requires forall w :: 0 <= w < |workers| ==> !workers[w].Executing?
    ensures Current(workers, key) == []
  {
    if workers != [] { IdleCurrent(workers[1..], key); }
  }

  lemma {:induction false} RunConcat(s: State, a: seq<Action>, b: seq<Action>)
    requires Valid(s, a) && Valid(Reached(s, a), b)
    ensures Valid(s, a + b) && Reached(s, a + b) == Reached(Reached(s, a), b)
    decreases a
  {
    if a == [] {
      assert a + b == b;
    } else {
      assert (a + b)[1..] == a[1..] + b;
      RunConcat(Next(s, a[0]), a[1..], b);
    }
  }

  lemma {:induction false} StopStays(s: State, run: seq<Action>)
    requires Valid(s, run) && s.stopping
    ensures Reached(s, run).stopping
    decreases run
  {
    if run != [] { StopStays(Next(s, run[0]), run[1..]); }
  }

  // ---- the run, told from its actions ----

  /** The work that was submitted, in order. */
  function Accepts(run: seq<Action>): seq<Entry> {
    if run == [] then [] else (if run[0].Submitted? then [run[0].entry] else []) + Accepts(run[1..])
  }

  function Completions(run: seq<Action>): nat {
    if run == [] then 0 else (if run[0].Complete? then 1 else 0) + Completions(run[1..])
  }

  /** Nothing that was submitted is forgotten, nothing else is there, and every completion counts. */
  lemma {:induction false} RunRecords(s: State, run: seq<Action>)
    requires Valid(s, run)
    ensures Reached(s, run).submitted == s.submitted + Accepts(run)
    ensures |Reached(s, run).done| == |s.done| + Completions(run)
    decreases run
  {
    if run == [] {
      assert s.submitted + [] == s.submitted;
    } else {
      RunRecords(Next(s, run[0]), run[1..]);
      Regroup(s.submitted, if run[0].Submitted? then [run[0].entry] else [], Accepts(run[1..]));
      if !run[0].Submitted? { assert s.submitted + [] == s.submitted; }
    }
  }

  /** In every run, for every key: what was submitted is what completed, then the one in execution, then
      what still waits. */
  lemma SubmittedExactly(capacity: nat, workers: nat, run: seq<Action>, key: string)
    requires Valid(Init(capacity, workers), run)
    ensures var s := Reached(Init(capacity, workers), run);
            && ForKey(Accepts(run), key) == ForKey(s.done, key) + Current(s.workers, key) + ForKey(s.queue, key)
            && |s.done| == Completions(run)
  {
    RunRecords(Init(capacity, workers), run);
    assert [] + Accepts(run) == Accepts(run);
    SubmissionOrder(capacity, workers, run, key);
  }

  lemma {:induction false} WorkersAcceptNothing(run: seq<Action>)
    requires forall k :: 0 <= k < |run| ==> WorkerStep(run[k])
    ensures Accepts(run) == []
  {
    if run != [] { WorkersAcceptNothing(run[1..]); }
  }

  /** After a stop, when no worker step is left, everything that was ever submitted has completed, for
      every key in the order of submission. */
  lemma DrainedExactly(capacity: nat, workers: nat, before: seq<Action>, after: seq<Action>, key: string)
    requires workers > 0 && Valid(Init(capacity, workers), before)
    requires Reached(Init(capacity, workers), before).stopping
    requires Valid(Reached(Init(capacity, workers), before), after)
    requires forall k :: 0 <= k < |after| ==> WorkerStep(after[k])
    requires var s := Reached(Reached(Init(capacity, workers), before), after);
             forall w :: 0 <= w < |s.workers| ==> s.workers[w] != Ready && !s.workers[w].Executing?
    ensures ForKey(Accepts(before), key) == ForKey(Reached(Reached(Init(capacity, workers), before), after).done, key)
  {
    var mid := Reached(Init(capacity, workers), before);
    StopDrains(capacity, workers, before, after);
    RunRecords(Init(capacity, workers), before);
    RunRecords(mid, after);
    WorkersAcceptNothing(after);
    assert [] + Accepts(before) + [] == Accepts(before);
  }

  /** The queue never holds more than its capacity. */
  lemma {:induction false} StaysBounded(s: State, run: seq<Action>)
    requires Valid(s, run) && |s.queue| <= s.capacity
    ensures Reached(s, run).capacity == s.capacity && |Reached(s, run).queue| <= s.capacity
    decreases run
  {
    if run != [] { StaysBounded(Next(s, run[0]), run[1..]); }
  }

  /** What a scan does: exits when the queue is stopped and empty; sleeps when every waiting key is
      active; otherwise takes the first entry whose key is not. */
  lemma ScanExactly(s: State, w: nat)
    requires Enabled(s, Scan(w))
    ensures var n := ScanStep(s, w);
            if s.stopping && s.queue == [] then n == s.(workers := s.workers[w := Exited])
            else if forall j :: 0 <= j < |s.queue| ==> s.queue[j].key in s.active then
              n == s.(workers := s.workers[w := Asleep])
            else
              exists i :: 0 <= i < |s.queue| && s.queue[i].key !in s.active
                && (forall j :: 0 <= j < i ==> s.queue[j].key in s.active)
                && n == s.(queue := s.queue[..i] + s.queue[i + 1..], active := s.active + [s.queue[i].key],
                           workers := s.workers[w := Executing(s.queue[i])])
  {
    var i := FirstFree(s.queue, s.active);
    if i < |s.queue| { assert s.queue[i].key !in s.active; }
  }

  /** What a completion does to the workers: its own looks again, and so does everyone who slept. */
  lemma CompletionWakes(s: State, w: nat, v: nat)
    requires Enabled(s, Complete(w)) && v < |s.workers|
    ensures CompleteStep(s, w).workers[v] == if v == w || s.workers[v] == Asleep then Ready else s.workers[v]
  {
  }
}
