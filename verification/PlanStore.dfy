/** The immutable plan store of src/app/preparation.c (prepare_store_plan): a sealed temporary
    plan is linked, never renamed, into a directory named by its physical variant identity.

    A file system is a map from path to inode and from inode to contents; plan files are
    published without replacement, so an inode's contents never change. Part one is one call
    in isolation; part two is any number of calls of different processes interleaved at every
    system call, each of which may crash anywhere. */
module PlanStore {
  import opened Wrappers

  const PATH_CAP := 4096

  datatype Status = Ok | ProbeError | Bounds | Io | Format

  /** The identities a plan file carries. A file that does not parse is `Malformed`; the probe
      marks every file it accepts complete, so an accepted plan is a complete one. */
  datatype Plan = Plan(payload: string, required: string, variant: string)

  datatype File = Sealed(plan: Plan) | Malformed

  datatype Fs = Fs(names: map<string, nat>, files: map<nat, File>)

  ghost predicate FsOk(fs: Fs) {
    forall p :: p in fs.names ==> fs.names[p] in fs.files
  }

  // ---- names ----

  predicate HexDigit(c: char) {
    '0' <= c <= '9' || 'a' <= c <= 'f' || 'A' <= c <= 'F'
  }

  predicate HexIdentity(s: string) {
    |s| == 64 && forall i :: 0 <= i < |s| ==> HexDigit(s[i])
  }

  /** An identity is 64 hexadecimal digits of either case. */
  lemma HexExactly(s: string)
    ensures HexIdentity(s) <==> |s| == 64 && forall c :: c in s ==> c in "0123456789abcdefABCDEF"
  {
    forall c ensures HexDigit(c) <==> c in "0123456789abcdefABCDEF" { HexDigitIs(c); }
  }

  lemma HexDigitIs(c: char)
    ensures HexDigit(c) <==> c in "0123456789abcdefABCDEF"
  {
    var digits := "0123456789abcdefABCDEF";
    if '0' <= c <= '9' { assert digits[c as int - '0' as int] == c; }
    if 'a' <= c <= 'f' { assert digits[10 + c as int - 'a' as int] == c; }
    if 'A' <= c <= 'F' { assert digits[16 + c as int - 'A' as int] == c; }
  }

  const LEAF := "/physical.plan"

  /** gguf root / target / physical variant identity / physical.plan */
  function StoredPath(target: string, variant: string): string {
    target + "/" + variant + LEAF
  }

  predicate Fits(target: string, variant: string) {
    |StoredPath(target, variant)| < PATH_CAP
  }

  /** The directory name is recovered from the path: one directory per variant. */
  lemma StoredPathNamesVariant(t: string, v: string, t': string, v': string)
    requires |v| == 64 == |v'| && StoredPath(t, v) == StoredPath(t', v')
    ensures v == v' && t == t'
  {
    var p := StoredPath(t, v);
    var end := |p| - |LEAF|;
    assert p[end - 64..end] == v && p[..end - 65] == t;
    assert StoredPath(t', v')[end - 64..end] == v' && StoredPath(t', v')[..end - 65] == t';
  }

  // ---- one call ----

  function Probe(fs: Fs, path: string): File
    requires FsOk(fs)
  {
    if path in fs.names then fs.files[fs.names[path]] else Malformed
  }

  predicate SameIdentities(a: Plan, b: Plan) {
    a.payload == b.payload && a.required == b.required && a.variant == b.variant
  }

  predicate Storable(file: File) {
    file.Sealed? && HexIdentity(file.plan.payload) && HexIdentity(file.plan.variant)
  }

  const ARTIFACT_LEAF := "/model.gguf"

  /** What snprintf leaves of a path that does not fit. */
  function Bounded(path: string): string { if |path| < PATH_CAP then path else path[..PATH_CAP - 1] }

  /** The artifact path after the paths of a variant were built: set as soon as its directory fits. */
  function ArtifactPath(target: string, variant: string, before: string): string {
    if |target + "/" + variant| >= PATH_CAP then before else Bounded(target + "/" + variant + ARTIFACT_LEAF)
  }

  /** Which system calls the system refuses for reasons of its own. */
  datatype Faults = Faults(mkdir: bool, link: bool, unlink: bool)

  const NO_FAULTS := Faults(false, false, false)

  /** A call's status, and the file system and the two paths of the context it leaves. */
  datatype Outcome = Outcome(rc: Status, fs: Fs, planPath: string, artifactPath: string)

  /** What one call does. */
  function Call(fs: Fs, target: string, temp: string, artifact: string, faults: Faults): (r: Outcome)
    requires FsOk(fs)
  {
    var own := Probe(fs, temp);
    if !own.Sealed? then Outcome(ProbeError, fs, temp, artifact)
    else if !Storable(own) then Outcome(Format, fs, temp, artifact)
    else
      var path := ArtifactPath(target, own.plan.variant, artifact);
      if !Fits(target, own.plan.variant) then Outcome(Bounds, fs, temp, path)
      else if faults.mkdir then Outcome(Io, fs, temp, path)
      else
        var stored := StoredPath(target, own.plan.variant);
        if stored in fs.names && !fs.files[fs.names[stored]].Sealed? then Outcome(ProbeError, fs, temp, path)
        else if stored in fs.names && !SameIdentities(fs.files[fs.names[stored]].plan, own.plan) then
          Outcome(Format, fs, temp, path)
        else if stored !in fs.names && faults.link then Outcome(Io, fs, temp, path)
        else
          var linked := if stored in fs.names then fs else fs.(names := fs.names[stored := fs.names[temp]]);
          if faults.unlink then Outcome(Io, linked, temp, path)
          else Outcome(Ok, linked.(names := linked.names - {temp}), stored, path)
  }

  class Preparer {
    const target: string
    var planPath: string
    var artifactPath: string
    var names: map<string, nat>
    var files: map<nat, File>

    constructor (target: string, planPath: string, artifactPath: string, fs: Fs)
      ensures this.target == target && this.planPath == planPath && this.artifactPath == artifactPath && View() == fs
    {
      this.target, this.planPath, this.artifactPath := target, planPath, artifactPath;
      names, files := fs.names, fs.files;
    }

    ghost function View(): Fs
      reads this
    {
      Fs(names, files)
    }

    /** Stores the sealed plan and makes the stored path the plan path. */
    method StorePlan(faults: Faults) returns (rc: Status)
      requires FsOk(View())
      modifies this
      ensures FsOk(View())
      ensures Outcome(rc, View(), planPath, artifactPath) == old(Call(View(), target, planPath, artifactPath, faults))
    {
      if planPath !in names || !files[names[planPath]].Sealed? { return ProbeError; }
      var own := files[names[planPath]].plan;
      if !HexIdentity(own.payload) || !HexIdentity(own.variant) { return Format; }
      var representation := target + "/" + own.variant;
      if |representation| >= PATH_CAP { return Bounds; }
      var artifact := representation + ARTIFACT_LEAF;
      artifactPath := Bounded(artifact);
      if |artifact| >= PATH_CAP { return Bounds; }
      var stored := representation + LEAF;
      if |stored| >= PATH_CAP { return Bounds; }
      if faults.mkdir { return Io; }
      if stored in names {
        var existing := files[names[stored]];
        if !existing.Sealed? { return ProbeError; }
        if existing.plan.payload != own.payload || existing.plan.required != own.required
           || existing.plan.variant != own.variant
        {
          return Format;
        }
      } else {
        if faults.link { return Io; }
        names := names[stored := names[planPath]];
      }
      if faults.unlink { return Io; }
      names := names - {planPath};
      planPath := stored;
      return Ok;
    }
  }

  /** A call that succeeds leaves its plan stored exactly when the plan path it was given was
      not already the stored path. Called again on the same context, it removes the plan. */
  lemma StoredAfterCall(fs: Fs, target: string, temp: string, artifact: string, faults: Faults)
    requires FsOk(fs) && Call(fs, target, temp, artifact, faults).rc == Ok
    ensures var own, after := Probe(fs, temp), Call(fs, target, temp, artifact, faults).fs;
            var stored := StoredPath(target, own.plan.variant);
            && (stored in after.names <==> temp != stored)
            && (temp != stored ==> Probe(after, stored) == own)
  {
  }

  /** When a call succeeds, and what it then leaves: exactly on a plan with two hexadecimal identities
      whose path fits, with the system's consent, and with nothing stored or the very same three
      identities. Only the temporary and the stored name change. */
  lemma OkExactly(fs: Fs, target: string, temp: string, artifact: string, faults: Faults, plan: Plan)
    requires FsOk(fs) && Probe(fs, temp) == Sealed(plan)
    ensures var r, stored := Call(fs, target, temp, artifact, faults), target + "/" + plan.variant + "/physical.plan";
            && (r.rc == Ok <==>
                  && HexIdentity(plan.payload) && HexIdentity(plan.variant) && |target| + 79 < 4096
                  && !faults.mkdir && !faults.unlink
                  && (if stored in fs.names then fs.files[fs.names[stored]] == Sealed(plan) else !faults.link))
            && (r.rc == Ok ==>
                  && r.planPath == stored && r.artifactPath == target + "/" + plan.variant + "/model.gguf"
                  && r.fs.files == fs.files && temp !in r.fs.names
                  && forall p :: p != temp && p != stored ==>
                       (p in r.fs.names <==> p in fs.names) && (p in fs.names ==> r.fs.names[p] == fs.names[p]))
  {
  }

  /** A stored plan that differs in any of the three identities is a conflict: the call is refused and
      the file system is as it was. */
  lemma ConflictIsRefused(fs: Fs, target: string, temp: string, artifact: string, faults: Faults, plan: Plan, other: Plan)
    requires FsOk(fs) && Probe(fs, temp) == Sealed(plan) && Storable(Sealed(plan)) && Fits(target, plan.variant)
    requires StoredPath(target, plan.variant) in fs.names
    requires Probe(fs, StoredPath(target, plan.variant)) == Sealed(other) && !faults.mkdir
    requires other.payload != plan.payload || other.required != plan.required || other.variant != plan.variant
    ensures var r := Call(fs, target, temp, artifact, faults);
            r.rc == Format && r.fs == fs && r.planPath == temp
  {
  }

  /** Only a refused unlink comes after a change; every other refusal leaves the file system as it was. */
  lemma RefusalChangesNothing(fs: Fs, target: string, temp: string, artifact: string, faults: Faults)
    requires FsOk(fs) && !faults.unlink
    ensures var r := Call(fs, target, temp, artifact, faults);
            r.rc != Ok ==> r.fs == fs && r.planPath == temp
  {
  }

  /** The second call on a context that just stored its plan also succeeds, and deletes it. */
  lemma SecondCallDeletes(fs: Fs, target: string, temp: string, artifact: string)
    requires FsOk(fs) && Call(fs, target, temp, artifact, NO_FAULTS).rc == Ok
    requires temp != StoredPath(target, Probe(fs, temp).plan.variant)
    ensures var first := Call(fs, target, temp, artifact, NO_FAULTS);
            && FsOk(first.fs)
            && var second := Call(first.fs, target, first.planPath, first.artifactPath, NO_FAULTS);
               second.rc == Ok && first.planPath !in second.fs.names
  {
  }

  /** A call that fails after publishing leaves the stored plan and the temporary one: it can be
      repeated, and then it succeeds. */
  lemma FailedUnlinkIsRepeatable(fs: Fs, target: string, temp: string, artifact: string, faults: Faults)
    requires FsOk(fs) && !faults.mkdir && !faults.link && faults.unlink
    requires Call(fs, target, temp, artifact, NO_FAULTS).rc == Ok
    requires temp != StoredPath(target, Probe(fs, temp).plan.variant)
    ensures var failed := Call(fs, target, temp, artifact, faults);
            && failed.rc == Io && failed.planPath == temp && FsOk(failed.fs)
            && Call(failed.fs, target, temp, failed.artifactPath, NO_FAULTS) == Call(fs, target, temp, artifact, NO_FAULTS)
  {
  }

  // ---- any number of concurrent calls ----

  datatype Pc =
    | Begin                    // no system call made yet
    | Probed                   // plan read, directories made
    | Missing                  // access() reported no stored plan
    | Present                  // access() reported a stored plan
    | Published                // stored plan is in place, temporary still there
    | Returned(rc: Status)
    | Crashed

  /** `sealed` is what the process read from its temporary plan. */
  datatype Process = Process(target: string, temp: string, pc: Pc, sealed: Plan)

  datatype State = State(fs: Fs, processes: seq<Process>)

  /** Refuse: the system refuses the pending mkdir, link or unlink for reasons of its own. */
  datatype Action = Write(file: File, inode: nat) | Read | Access | ProbeStored | Link | Unlink | Refuse | Crash

  function Stored(p: Process): string { StoredPath(p.target, p.sealed.variant) }

  predicate Enabled(s: State, i: nat, a: Action)
    requires i < |s.processes|
  {
    var p := s.processes[i];
    match a
    case Write(_, inode) => p.pc == Begin && p.temp !in s.fs.names && inode !in s.fs.files
    case Read => p.pc == Begin
    case Access => p.pc == Probed
    case ProbeStored => p.pc == Present
    case Link => p.pc == Missing
    case Unlink => p.pc == Published
    case Refuse => p.pc in {Probed, Missing, Published}
    case Crash => !p.pc.Returned? && p.pc != Crashed
  }

  function Next(s: State, i: nat, a: Action): (n: State)
    requires i < |s.processes| && Enabled(s, i, a) && FsOk(s.fs)
    ensures FsOk(n.fs) && |n.processes| == |s.processes|
  {
    var p := s.processes[i];
    match a
    case Write(file, inode) =>
      // the compiler publishes a new temporary plan, without replacement
      s.(fs := Fs(s.fs.names[p.temp := inode], s.fs.files[inode := file]))
    case Read =>
      var own := Probe(s.fs, p.temp);
      if !own.Sealed? then Goto(s, i, Returned(ProbeError))
      else if !Storable(own) then Goto(s, i, Returned(Format))
      else if !Fits(p.target, own.plan.variant) then Goto(s, i, Returned(Bounds))
      else s.(processes := s.processes[i := p.(pc := Probed, sealed := own.plan)])
    case Access => Goto(s, i, if Stored(p) in s.fs.names then Present else Missing)
    case ProbeStored =>
      var existing := Probe(s.fs, Stored(p));
      if !existing.Sealed? then Goto(s, i, Returned(ProbeError))
      else if !SameIdentities(existing.plan, p.sealed) then Goto(s, i, Returned(Format))
      else Goto(s, i, Published)
    case Link =>
      // link(2) never replaces: it fails when the name exists or the source is gone
      if Stored(p) in s.fs.names || p.temp !in s.fs.names then Goto(s, i, Returned(Io))
      else
        Goto(s, i, Published)
        .(fs := s.fs.(names := s.fs.names[Stored(p) := s.fs.names[p.temp]]))
    case Unlink =>
      if p.temp !in s.fs.names then Goto(s, i, Returned(Io))
      else Goto(s, i, Returned(Ok)).(fs := s.fs.(names := s.fs.names - {p.temp}))
    case Refuse => Goto(s, i, Returned(Io))
    case Crash => Goto(s, i, Crashed)
  }

  function Goto(s: State, i: nat, pc: Pc): State
    requires i < |s.processes|
  {
    s.(processes := s.processes[i := s.processes[i].(pc := pc)])
  }

  type Schedule = seq<(nat, Action)>

  predicate Valid(s: State, schedule: Schedule)
    requires FsOk(s.fs)
    decreases schedule
  {
    schedule == [] ||
    (var (i, a) := schedule[0];
     i < |s.processes| && Enabled(s, i, a) && Valid(Next(s, i, a), schedule[1..]))
  }

  function Reached(s: State, schedule: Schedule): (r: State)
    requires FsOk(s.fs) && Valid(s, schedule)
    ensures FsOk(r.fs) && |r.processes| == |s.processes|
    decreases schedule
  {
    if schedule == [] then s else Reached(Next(s, schedule[0].0, schedule[0].1), schedule[1..])
  }

  /** Temporary plans are distinct and none is a stored path. */
  ghost predicate TempsOk(processes: seq<Process>) {
    && (forall i, j :: 0 <= i < j < |processes| ==> processes[i].temp != processes[j].temp)
    && (forall i, t, v :: 0 <= i < |processes| ==> processes[i].temp != StoredPath(t, v))
  }

  /** Every stored plan is filed under its own physical variant identity. */
  ghost predicate Addressed(fs: Fs)
    requires FsOk(fs)
  {
    forall t, v :: HexIdentity(v) && StoredPath(t, v) in fs.names && Probe(fs, StoredPath(t, v)).Sealed? ==>
                     Probe(fs, StoredPath(t, v)).plan.variant == v
  }

  /** What is known of a process from where it stands. */
  ghost predicate ProcessOk(fs: Fs, p: Process)
    requires FsOk(fs)
  {
    && (p.pc in {Probed, Missing, Present, Published} || p.pc == Returned(Ok) ==>
          Storable(Sealed(p.sealed)) && Fits(p.target, p.sealed.variant))
    && (p.pc in {Probed, Missing, Present, Published} ==>
          p.temp in fs.names && Probe(fs, p.temp) == Sealed(p.sealed))
    && (p.pc == Present ==> Stored(p) in fs.names)
    && (p.pc == Published || p.pc == Returned(Ok) ==>
          Stored(p) in fs.names && Probe(fs, Stored(p)) == Sealed(p.sealed))
  }

  ghost predicate Inv(s: State) {
    && FsOk(s.fs) && TempsOk(s.processes)
    && (forall i :: 0 <= i < |s.processes| ==> ProcessOk(s.fs, s.processes[i]))
  }

  /** Names outside the temporary plans only ever get added, and contents never change. */
  ghost predicate Grows(a: Fs, b: Fs, temps: set<string>) {
    && (forall n :: n in a.files ==> n in b.files && b.files[n] == a.files[n])
    && (forall p :: p in a.names && p !in temps ==> p in b.names && b.names[p] == a.names[p])
  }

  ghost function Temps(processes: seq<Process>): set<string> {
    set i | 0 <= i < |processes| :: processes[i].temp
  }

  lemma StepFs(s: State, i: nat, a: Action)
    requires FsOk(s.fs) && i < |s.processes| && Enabled(s, i, a)
    ensures Grows(s.fs, Next(s, i, a).fs, {s.processes[i].temp})
    ensures a != Unlink && s.processes[i].temp in s.fs.names ==> Grows(s.fs, Next(s, i, a).fs, {})
  {
  }

  lemma StepOthers(s: State, i: nat, a: Action)
    requires FsOk(s.fs) && i < |s.processes| && Enabled(s, i, a)
    ensures var n, p := Next(s, i, a), s.processes[i];
            && n.processes == s.processes[i := n.processes[i]]
            && n.processes[i].temp == p.temp && n.processes[i].target == p.target
  {
  }

  lemma OthersOk(fs: Fs, n: Fs, p: Process, temp: string)
    requires FsOk(fs) && FsOk(n) && Grows(fs, n, {temp}) && ProcessOk(fs, p)
    requires p.temp != temp && Stored(p) != temp
    ensures ProcessOk(n, p)
  {
  }

  lemma SelfOk(s: State, i: nat, a: Action)
    requires Inv(s) && i < |s.processes| && Enabled(s, i, a)
    ensures ProcessOk(Next(s, i, a).fs, Next(s, i, a).processes[i])
  {
    var p := s.processes[i];
    assert p.temp != Stored(p);
  }

  lemma StepInv(s: State, i: nat, a: Action)
    requires Inv(s) && i < |s.processes| && Enabled(s, i, a)
    ensures Inv(Next(s, i, a))
    ensures Grows(s.fs, Next(s, i, a).fs, Temps(s.processes))
  {
    StepFs(s, i, a);
    StepOthers(s, i, a);
    var n := Next(s, i, a);
    forall j | 0 <= j < |n.processes| ensures ProcessOk(n.fs, n.processes[j]) {
      if j == i {
        SelfOk(s, i, a);
      } else {
        OthersOk(s.fs, n.fs, s.processes[j], s.processes[i].temp);
      }
    }
    assert s.processes[i].temp in Temps(s.processes);
  }

  lemma SameTemps(s: State, i: nat, a: Action)
    requires Inv(s) && i < |s.processes| && Enabled(s, i, a)
    ensures Temps(Next(s, i, a).processes) == Temps(s.processes)
  {
    StepFs(s, i, a);
    StepOthers(s, i, a);
    var n := Next(s, i, a);
    forall t ensures t in Temps(n.processes) <==> t in Temps(s.processes) {
      if t in Temps(s.processes) {
        var j :| 0 <= j < |s.processes| && s.processes[j].temp == t;
        assert n.processes[j].temp == t;
      }
    }
  }

  lemma {:induction false} ReachedInv(s: State, schedule: Schedule)
    requires Inv(s) && Valid(s, schedule)
    ensures Inv(Reached(s, schedule))
    ensures Grows(s.fs, Reached(s, schedule).fs, Temps(s.processes))
    decreases schedule
  {
    if schedule != [] {
      StepInv(s, schedule[0].0, schedule[0].1);
      SameTemps(s, schedule[0].0, schedule[0].1);
      ReachedInv(Next(s, schedule[0].0, schedule[0].1), schedule[1..]);
    }
  }

  /** Processes about to call, over any file system, with distinct temporary plans. */
  ghost predicate Starting(s: State) {
    && FsOk(s.fs) && TempsOk(s.processes)
    && forall i :: 0 <= i < |s.processes| ==> s.processes[i].pc == Begin
  }

  /** Under every interleaving and every crash, a plan that is stored at some point is the same
      file with the same identities at every later point. */
  lemma PublishedPlanNeverChanges(s: State, before: Schedule, after: Schedule, target: string, variant: string)
    requires Starting(s) && Valid(s, before)
    requires Valid(Reached(s, before), after)
    requires StoredPath(target, variant) in Reached(s, before).fs.names
    ensures var mid := Reached(s, before);
            var end, path := Reached(mid, after), StoredPath(target, variant);
            path in end.fs.names && Probe(end.fs, path) == Probe(mid.fs, path)
  {
    ReachedInv(s, before);
    var mid := Reached(s, before);
    ReachedInv(mid, after);
    forall t | t in Temps(mid.processes) ensures t != StoredPath(target, variant) {
      var i :| 0 <= i < |mid.processes| && mid.processes[i].temp == t;
    }
  }

  /** A process that returned OK finds a stored plan with the three identities it sealed. */
  lemma OkMeansStored(s: State, schedule: Schedule, i: nat)
    requires Starting(s) && Valid(s, schedule) && i < |s.processes|
    requires Reached(s, schedule).processes[i].pc == Returned(Ok)
    ensures var end := Reached(s, schedule);
            var p := end.processes[i];
            Stored(p) in end.fs.names && Probe(end.fs, Stored(p)) == Sealed(p.sealed)
  {
    ReachedInv(s, schedule);
  }

  /** Until it returned OK a process has its temporary plan, and what it sealed is that plan. */
  ghost predicate Keeps(s: State, i: nat, plan: Plan) {
    && FsOk(s.fs) && i < |s.processes|
    && var p := s.processes[i];
       && (p.pc != Returned(Ok) ==> p.temp in s.fs.names && Probe(s.fs, p.temp) == Sealed(plan))
       && (p.pc in {Probed, Missing, Present, Published} || p.pc == Returned(Ok) ==> p.sealed == plan)
  }

  lemma StepKeeps(s: State, j: nat, a: Action, i: nat, plan: Plan)
    requires Inv(s) && Keeps(s, i, plan) && j < |s.processes| && Enabled(s, j, a)
    ensures Keeps(Next(s, j, a), i, plan)
  {
    StepOthers(s, j, a);
    StepFs(s, j, a);
    var p := s.processes[j];
    assert p.temp != Stored(p);
    if j != i { assert p.temp != s.processes[i].temp; }
  }

  lemma {:induction false} RunKeeps(s: State, schedule: Schedule, i: nat, plan: Plan)
    requires Inv(s) && Keeps(s, i, plan) && Valid(s, schedule)
    ensures Inv(Reached(s, schedule)) && Keeps(Reached(s, schedule), i, plan)
    decreases schedule
  {
    if schedule != [] {
      StepInv(s, schedule[0].0, schedule[0].1);
      StepKeeps(s, schedule[0].0, schedule[0].1, i, plan);
      RunKeeps(Next(s, schedule[0].0, schedule[0].1), schedule[1..], i, plan);
    }
  }

  /** No plan is lost: whatever the processes do and wherever they crash, the plan a process came with
      is at its temporary path or, once it returned OK and only then, stored under its own variant. */
  lemma NoPlanIsLost(s: State, schedule: Schedule, i: nat, plan: Plan)
    requires Starting(s) && Valid(s, schedule) && i < |s.processes|
    requires s.processes[i].temp in s.fs.names && Probe(s.fs, s.processes[i].temp) == Sealed(plan)
    ensures var end := Reached(s, schedule);
            var p := end.processes[i];
            if p.pc == Returned(Ok) then Probe(end.fs, StoredPath(p.target, plan.variant)) == Sealed(plan)
            else p.temp in end.fs.names && Probe(end.fs, p.temp) == Sealed(plan)
  {
    RunKeeps(s, schedule, i, plan);
  }

  lemma {:induction false} SameTarget(s: State, schedule: Schedule, i: nat)
    requires FsOk(s.fs) && Valid(s, schedule) && i < |s.processes|
    ensures Reached(s, schedule).processes[i].target == s.processes[i].target
    decreases schedule
  {
    if schedule != [] {
      StepOthers(s, schedule[0].0, schedule[0].1);
      SameTarget(Next(s, schedule[0].0, schedule[0].1), schedule[1..], i);
    }
  }

  /** A process whose variant is already stored with another payload, another required payload or
      another variant identity never returns OK. */
  lemma ConflictNeverReturnsOk(s: State, schedule: Schedule, i: nat, plan: Plan, other: Plan)
    requires Starting(s) && Valid(s, schedule) && i < |s.processes|
    requires s.processes[i].temp in s.fs.names && Probe(s.fs, s.processes[i].temp) == Sealed(plan)
    requires StoredPath(s.processes[i].target, plan.variant) in s.fs.names
    requires Probe(s.fs, StoredPath(s.processes[i].target, plan.variant)) == Sealed(other)
    requires other.payload != plan.payload || other.required != plan.required || other.variant != plan.variant
    ensures Reached(s, schedule).processes[i].pc != Returned(Ok)
  {
    NoPlanIsLost(s, schedule, i, plan);
    SameTarget(s, schedule, i);
    PublishedPlanNeverChanges(s, [], schedule, s.processes[i].target, plan.variant);
  }

  // ---- when a process returns an input/output error ----

  /** In every invariant state, a step returns Io exactly when the system refuses it, or when it is a
      link and someone has stored a plan since this process looked. */
  lemma IoExactly(s: State, i: nat, a: Action)
    requires Inv(s) && i < |s.processes| && Enabled(s, i, a)
    ensures Next(s, i, a).processes[i].pc == Returned(Io) <==>
            a == Refuse || (a == Link && Stored(s.processes[i]) in s.fs.names)
  {
  }

  /** So in a run without refusals, a process that returned Io finds a stored plan at its path. */
  lemma {:induction false} IoMeansStored(s: State, schedule: Schedule, i: nat)
    requires Inv(s) && Valid(s, schedule) && i < |s.processes|
    requires forall k :: 0 <= k < |schedule| ==> schedule[k] != (i, Refuse)
    requires s.processes[i].pc == Returned(Io) ==> Stored(s.processes[i]) in s.fs.names
    ensures var end := Reached(s, schedule);
            end.processes[i].pc == Returned(Io) ==> Stored(end.processes[i]) in end.fs.names
    decreases schedule
  {
    if schedule != [] {
      var (j, a) := schedule[0];
      StepInv(s, j, a);
      StepFs(s, j, a);
      StepOthers(s, j, a);
      if j == i { IoExactly(s, i, a); } else { assert s.processes[j].temp != Stored(s.processes[i]); }
      assert forall k :: 0 <= k < |schedule[1..]| ==> schedule[1..][k] == schedule[k + 1];
      IoMeansStored(Next(s, j, a), schedule[1..], i);
    }
  }

  /** Both see no stored plan, then both link. */
  function Race(i: nat, j: nat): Schedule {
    [(i, Read), (j, Read), (i, Access), (j, Access), (i, Link), (j, Link)]
  }

  /** Process j lost: it returns Io, and what is stored is the plan it sealed. */
  ghost predicate Lost(end: State, j: nat) {
    && FsOk(end.fs) && j < |end.processes| && end.processes[j].pc == Returned(Io)
    && Probe(end.fs, Stored(end.processes[j])) == Sealed(end.processes[j].sealed)
  }

  /** Processes i and j are at the same point with the same sealed plan, and nothing is stored. */
  ghost predicate Tied(s: State, i: nat, j: nat, pc: Pc, plan: Plan) {
    && FsOk(s.fs) && i < |s.processes| && j < |s.processes| && i != j
    && s.processes[i].pc == s.processes[j].pc == pc && s.processes[i].sealed == s.processes[j].sealed == plan
    && s.processes[i].target == s.processes[j].target
    && s.processes[i].temp in s.fs.names && Probe(s.fs, s.processes[i].temp) == Sealed(plan)
    && StoredPath(s.processes[i].target, plan.variant) !in s.fs.names
  }

  lemma LinkRace(s: State, i: nat, j: nat, plan: Plan)
    requires Tied(s, i, j, Missing, plan)
    ensures Valid(s, [(i, Link)] + [(j, Link)]) && Lost(Reached(s, [(i, Link)] + [(j, Link)]), j)
  {
    var next := Next(s, i, Link);
    assert next.processes[j] == s.processes[j] && Stored(s.processes[j]) in next.fs.names;
    OneStep(next, j, Link, []);
    assert [(j, Link)] + [] == [(j, Link)];
    OneStep(s, i, Link, [(j, Link)]);
  }

  lemma AccessRace(s: State, i: nat, j: nat, plan: Plan)
    requires Tied(s, i, j, Probed, plan)
    ensures var rest := [(i, Access)] + ([(j, Access)] + ([(i, Link)] + [(j, Link)]));
            Valid(s, rest) && Lost(Reached(s, rest), j)
  {
    var next := Next(s, i, Access);
    LinkRace(Next(next, j, Access), i, j, plan);
    OneStep(next, j, Access, [(i, Link)] + [(j, Link)]);
    OneStep(s, i, Access, [(j, Access)] + ([(i, Link)] + [(j, Link)]));
  }

  /** Two processes with the same plan and nothing stored yet: the loser of the link returns Io,
      although what is stored then is the plan it sealed. */
  lemma LoserReturnsIo(s: State, i: nat, j: nat)
    requires Inv(s) && i < |s.processes| && j < |s.processes| && i != j
    requires s.processes[i].pc == Begin && s.processes[j].pc == Begin
    requires s.processes[i].target == s.processes[j].target
    requires Storable(Probe(s.fs, s.processes[i].temp))
    requires Probe(s.fs, s.processes[i].temp) == Probe(s.fs, s.processes[j].temp)
    requires Fits(s.processes[i].target, Probe(s.fs, s.processes[i].temp).plan.variant)
    requires StoredPath(s.processes[i].target, Probe(s.fs, s.processes[i].temp).plan.variant) !in s.fs.names
    ensures Valid(s, Race(i, j)) && Lost(Reached(s, Race(i, j)), j)
  {
    var rest := [(i, Access)] + ([(j, Access)] + ([(i, Link)] + [(j, Link)]));
    var next := Next(s, i, Read);
    AccessRace(Next(next, j, Read), i, j, Probe(s.fs, s.processes[i].temp).plan);
    OneStep(next, j, Read, rest);
    OneStep(s, i, Read, [(j, Read)] + rest);
    assert Race(i, j) == [(i, Read)] + ([(j, Read)] + rest);
  }

  // ---- content addressing ----

  lemma StepAddressed(s: State, i: nat, a: Action)
    requires Inv(s) && i < |s.processes| && Enabled(s, i, a) && Addressed(s.fs)
    ensures Addressed(Next(s, i, a).fs)
  {
    StepFs(s, i, a);
    StepOthers(s, i, a);
    var p, n := s.processes[i], Next(s, i, a);
    forall t, v | HexIdentity(v) && StoredPath(t, v) in n.fs.names && Probe(n.fs, StoredPath(t, v)).Sealed?
      ensures Probe(n.fs, StoredPath(t, v)).plan.variant == v
    {
      assert p.temp != StoredPath(t, v);
      if StoredPath(t, v) !in s.fs.names {
        assert a == Link && StoredPath(t, v) == Stored(p);
        StoredPathNamesVariant(t, v, p.target, p.sealed.variant);
      }
    }
  }

  /** The store stays content-addressed: whatever happens, a plan below the directory of a
      variant identity has that identity. */
  lemma {:induction false} StaysAddressed(s: State, schedule: Schedule)
    requires Inv(s) && Valid(s, schedule) && Addressed(s.fs)
    ensures Inv(Reached(s, schedule)) && Addressed(Reached(s, schedule).fs)
    decreases schedule
  {
    if schedule != [] {
      StepAddressed(s, schedule[0].0, schedule[0].1);
      StepInv(s, schedule[0].0, schedule[0].1);
      StaysAddressed(Next(s, schedule[0].0, schedule[0].1), schedule[1..]);
    }
  }

  // ---- recovery ----

  /** The steps of one call run without interference. */
  function Alone(fs: Fs, i: nat, stored: string): Schedule {
    [(i, Read), (i, Access), (i, if stored in fs.names then ProbeStored else Link), (i, Unlink)]
  }

  /** After any run, in particular one in which another process crashed between link and unlink
      or lost the race to link, a process that starts with a complete plan carrying the stored
      identities, or for a variant not stored yet, and runs undisturbed returns OK; the machine
      and the single call agree. */
  lemma RerunSucceeds(s: State, i: nat, artifact: string)
    requires Inv(s) && i < |s.processes| && s.processes[i].pc == Begin
    requires var p := s.processes[i];
             && Storable(Probe(s.fs, p.temp)) && Fits(p.target, Probe(s.fs, p.temp).plan.variant)
             && var stored := StoredPath(p.target, Probe(s.fs, p.temp).plan.variant);
                stored in s.fs.names ==> Probe(s.fs, stored) == Probe(s.fs, p.temp)
    ensures var p := s.processes[i];
            var stored := StoredPath(p.target, Probe(s.fs, p.temp).plan.variant);
            && Valid(s, Alone(s.fs, i, stored))
            && Reached(s, Alone(s.fs, i, stored)).processes[i].pc == Returned(Ok)
            && Call(s.fs, p.target, p.temp, artifact, NO_FAULTS)
               == Outcome(Ok, Reached(s, Alone(s.fs, i, stored)).fs, stored,
                          ArtifactPath(p.target, Probe(s.fs, p.temp).plan.variant, artifact))
  {
    var p := s.processes[i];
    var stored := StoredPath(p.target, Probe(s.fs, p.temp).plan.variant);
    var run := Alone(s.fs, i, stored);
    var s1 := Next(s, i, Read);
    var s2 := Next(s1, i, Access);
    var s3 := Next(s2, i, run[2].1);
    var s4 := Next(s3, i, Unlink);
    assert p.temp != stored;
    OneStep(s3, i, Unlink, []);
    OneStep(s2, i, run[2].1, [(i, Unlink)]);
    OneStep(s1, i, Access, [run[2], (i, Unlink)]);
    OneStep(s, i, Read, [(i, Access), run[2], (i, Unlink)]);
    assert run == [(i, Read)] + ([(i, Access)] + ([run[2]] + ([(i, Unlink)] + [])));
  }

  /** The next step of a process that nobody disturbs. */
  function Following(pc: Pc): Option<Action> {
    match pc
    case Begin => Some(Read)
    case Probed => Some(Access)
    case Missing => Some(Link)
    case Present => Some(ProbeStored)
    case Published => Some(Unlink)
    case _ => None
  }

  function Undisturbed(s: State, i: nat, n: nat): State
    requires FsOk(s.fs) && i < |s.processes|
    decreases n
  {
    if n == 0 || Following(s.processes[i].pc).None? then s
    else Undisturbed(Next(s, i, Following(s.processes[i].pc).value), i, n - 1)
  }

  /** Undisturbed, a process does what the single call does, on every path: the same status and the same
      file system. */
  lemma UndisturbedIsCall(s: State, i: nat, artifact: string)
    requires Inv(s) && i < |s.processes| && s.processes[i].pc == Begin
    ensures var p, end := s.processes[i], Undisturbed(s, i, 4);
            var r := Call(s.fs, p.target, p.temp, artifact, NO_FAULTS);
            end.processes[i].pc == Returned(r.rc) && end.fs == r.fs
  {
    var p := s.processes[i];
    var s1 := Next(s, i, Read);
    assert Undisturbed(s, i, 4) == Undisturbed(s1, i, 3);
    if s1.processes[i].pc == Probed {
      ProbedIsCall(s1, i, artifact);
    }
  }

  lemma ProbedIsCall(s: State, i: nat, artifact: string)
    requires FsOk(s.fs) && i < |s.processes| && s.processes[i].pc == Probed
    requires var p := s.processes[i];
             && p.temp in s.fs.names && Probe(s.fs, p.temp) == Sealed(p.sealed) && Storable(Sealed(p.sealed))
             && Fits(p.target, p.sealed.variant) && p.temp != Stored(p)
    ensures var p, end := s.processes[i], Undisturbed(s, i, 3);
            var r := Call(s.fs, p.target, p.temp, artifact, NO_FAULTS);
            end.processes[i].pc == Returned(r.rc) && end.fs == r.fs
  {
    var s2 := Next(s, i, Access);
    assert Undisturbed(s, i, 3) == Undisturbed(s2, i, 2);
    var s3 := Next(s2, i, Following(s2.processes[i].pc).value);
    assert Undisturbed(s2, i, 2) == Undisturbed(s3, i, 1);
    if s3.processes[i].pc == Published { assert Undisturbed(s3, i, 1) == Undisturbed(Next(s3, i, Unlink), i, 0); }
  }

  lemma OneStep(s: State, i: nat, a: Action, rest: Schedule)
    requires FsOk(s.fs) && i < |s.processes| && Enabled(s, i, a)
    requires Valid(Next(s, i, a), rest)
    ensures Valid(s, [(i, a)] + rest) && Reached(s, [(i, a)] + rest) == Reached(Next(s, i, a), rest)
  {
    assert ([(i, a)] + rest)[1..] == rest;
  }
}
