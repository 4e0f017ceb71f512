/** The preparation context of src/app/preparation.c: a `verified` flag that gates every
    mutation, and the comparison of a sealed plan with an existing artifact.

    What the source, the compiler and the file system answer is a parameter of each call. The
    object records what it made happen outside in `effects`. */
module Preparation {
  import opened Wrappers

  // ---- plan against artifact ----

  datatype Plan = Plan(
    complete: bool, profile: string, variant: string, payloadPlan: string, required: string,
    transform: string, snapshot: nat, mapping: nat, encodedBytes: nat)

  datatype Admission = Admission(
    complete: bool, profile: string, payloadPlan: string, payload: string,
    transform: string, snapshot: nat, mapping: nat, payloadBytes: nat)

  predicate Matches(plan: Option<Plan>, admission: Option<Admission>) {
    && plan.Some? && plan.value.complete && admission.Some? && admission.value.complete
    && var p, a := plan.value, admission.value;
       && p.profile == a.profile && p.variant == a.profile && p.payloadPlan == a.payloadPlan
       && p.required == a.payload && p.transform == a.transform
       && p.snapshot == a.snapshot && p.mapping == a.mapping && p.encodedBytes == a.payloadBytes
  }

  datatype Field =
    | PhysicalPlan | ArtifactAdmission | ProfileIdentity | VariantIdentity | PayloadPlanIdentity
    | PayloadIdentity | TransformIdentity | SnapshotIdentity | MappingIdentity | EncodedBytes | ImatrixIdentity

  function Mismatch(plan: Option<Plan>, admission: Option<Admission>): (field: Option<Field>) {
    if plan.None? || !plan.value.complete then Some(PhysicalPlan)
    else if admission.None? || !admission.value.complete then Some(ArtifactAdmission)
    else
      var p, a := plan.value, admission.value;
      if p.profile != a.profile then Some(ProfileIdentity)
      else if p.variant != a.profile then Some(VariantIdentity)
      else if p.payloadPlan != a.payloadPlan then Some(PayloadPlanIdentity)
      else if p.required != a.payload then Some(PayloadIdentity)
      else if p.transform != a.transform then Some(TransformIdentity)
      else if p.snapshot != a.snapshot then Some(SnapshotIdentity)
      else if p.mapping != a.mapping then Some(MappingIdentity)
      else if p.encodedBytes != a.payloadBytes then Some(EncodedBytes)
      else None
  }

  /** The two independent listings of the fields agree: a mismatch is reported exactly when the
      match fails. */
  lemma MatchIffNoMismatch(plan: Option<Plan>, admission: Option<Admission>)
    ensures Matches(plan, admission) <==> Mismatch(plan, admission).None?
  {
  }

  /** A plan has exactly one matching admission, and has one exactly when it is complete and its variant
      is its profile. */
  lemma MatchExactly(plan: Plan, admission: Admission)
    ensures Matches(Some(plan), Some(admission)) <==>
            && plan.complete && plan.variant == plan.profile
            && admission == Admission(true, plan.profile, plan.payloadPlan, plan.required, plan.transform,
                                      plan.snapshot, plan.mapping, plan.encodedBytes)
  {
  }

  // ---- the context ----

  datatype Status = Ok | StateError | FormatError | Refused(code: nat)

  /** What prepare_existing_artifact meets: a refusal of one of its own calls, or the plan and
      the admission it compares, with the imatrix comparison. */
  datatype Existing =
    | CallRefused(code: nat)
    | Compared(plan: Plan, admission: Admission, imatrix: bool)

  datatype Verdict = VerdictOk | VerdictRefused(code: nat) | VerdictMismatch(field: Field)

  /** prepare_existing_artifact: the field it names is the first that differs. */
  function ExistingArtifact(e: Existing): (v: Verdict)
    ensures v.VerdictOk? <==> e.Compared? && Matches(Some(e.plan), Some(e.admission)) && e.imatrix
    ensures v == VerdictMismatch(ImatrixIdentity) <==>
              e.Compared? && Matches(Some(e.plan), Some(e.admission)) && !e.imatrix
  {
    match e
    case CallRefused(code) => VerdictRefused(code)
    case Compared(plan, admission, imatrix) =>
      if !Matches(Some(plan), Some(admission)) || !imatrix then
        var field := Mismatch(Some(plan), Some(admission));
        VerdictMismatch(if field.Some? then field.value else ImatrixIdentity)
      else VerdictOk
  }

  function StatusOf(v: Verdict): Status {
    match v
    case VerdictOk => Ok
    case VerdictRefused(code) => Refused(code)
    case VerdictMismatch(_) => FormatError
  }

  /** What a call did outside the context. */
  datatype Effect =
    | ParentsCreated
    | SourceVerified(ok: bool)
    | PlanStored
    | BindingCompiled(existing: Existing)

  datatype Call =
    | Verify(parents: Status, source: Status)
    | StorePlan(store: Status)
    | Cached(arguments: bool, hit: bool)
    | ArtifactVerify(existing: Existing)
    | BindingPublish(receipt: bool, existing: Existing, compile: Status)

  /** A context, as far as the calls can tell: two constants and the flag. */
  datatype Context = Context(dryRun: bool, rebind: bool, verified: bool)

  datatype Outcome = Outcome(verified: bool, rc: Status, effects: seq<Effect>)

  function Answer(c: Context, call: Call): (o: Outcome) {
    match call
    case Verify(parents, source) =>
      if c.dryRun then Outcome(false, StateError, [])
      else if parents != Ok then Outcome(false, parents, [ParentsCreated])
      else Outcome(source == Ok, source, [ParentsCreated, SourceVerified(source == Ok)])
    case StorePlan(store) =>
      if c.dryRun || !c.verified || c.rebind then Outcome(c.verified, StateError, [])
      else Outcome(c.verified, store, [PlanStored])
    case Cached(arguments, _) =>
      Outcome(c.verified, if c.verified && arguments then Ok else StateError, [])
    case ArtifactVerify(existing) =>
      Outcome(c.verified, if c.verified then StatusOf(ExistingArtifact(existing)) else StateError, [])
    case BindingPublish(receipt, existing, compile) =>
      if c.dryRun || !receipt || !c.verified then Outcome(c.verified, StateError, [])
      else
        var v := ExistingArtifact(existing);
        if v.VerdictOk? then Outcome(c.verified, compile, [BindingCompiled(existing)])
        else Outcome(c.verified, StatusOf(v), [])
  }

  class ModelPreparation {
    const dryRun: bool
    const rebind: bool
    var verified: bool
    var effects: seq<Effect>

    ghost function View(): Context
      reads this
    {
      Context(dryRun, rebind, verified)
    }

    /** Each call does what `Answer` says and nothing else. */
    twostate predicate Answers(call: Call, rc: Status)
      reads this
    {
      var o := Answer(old(View()), call);
      verified == o.verified && effects == old(effects) + o.effects && rc == o.rc
    }

    constructor (dryRun: bool, rebind: bool)
      ensures View() == Context(dryRun, rebind, false) && effects == []
    {
      this.dryRun, this.rebind, verified, effects := dryRun, rebind, false, [];
    }

    method Mutable() returns (rc: Status)
      ensures rc == if dryRun then StateError else Ok
    {
      return if dryRun then StateError else Ok;
    }

    method DoVerify(parents: Status, source: Status) returns (rc: Status)
      modifies this
      ensures Answers(Verify(parents, source), rc)
    {
      rc := Mutable();
      if rc == Ok {
        effects := effects + [ParentsCreated];
        rc := parents;
      }
      if rc == Ok {
        effects := effects + [SourceVerified(source == Ok)];
        rc := source;
      }
      verified := rc == Ok;
    }

    method DoStorePlan(store: Status) returns (rc: Status)
      modifies this
      ensures Answers(StorePlan(store), rc)
    {
      rc := Mutable();
      if rc != Ok { return; }
      if !verified || rebind { return StateError; }
      effects := effects + [PlanStored];
      return store;
    }

    method DoCached(arguments: bool, hit: bool) returns (rc: Status, cached: bool)
      ensures Answers(Cached(arguments, hit), rc)
      ensures cached == (rc == Ok && hit)
    {
      if !verified || !arguments { return StateError, false; }
      return Ok, hit;
    }

    method DoArtifactVerify(existing: Existing) returns (rc: Status)
      ensures Answers(ArtifactVerify(existing), rc)
    {
      if !verified { return StateError; }
      return StatusOf(ExistingArtifact(existing));
    }

    method DoBindingPublish(receipt: bool, existing: Existing, compile: Status) returns (rc: Status)
      modifies this
      ensures Answers(BindingPublish(receipt, existing, compile), rc)
    {
      rc := Mutable();
      if rc != Ok { return; }
      if !receipt || !verified { return StateError; }
      rc := StatusOf(ExistingArtifact(existing));
      if rc == Ok {
        effects := effects + [BindingCompiled(existing)];
        rc := compile;
      }
    }
  }

  // ---- every sequence of calls ----

  /** The outcomes of a sequence of calls on one context. */
  function Outcomes(c: Context, calls: seq<Call>): (os: seq<Outcome>)
    ensures |os| == |calls|
    decreases calls
  {
    if calls == [] then []
    else
      var o := Answer(c, calls[0]);
      [o] + Outcomes(c.(verified := o.verified), calls[1..])
  }

  /** The result of the last Verify among the calls: what later calls rely on. */
  function LatestVerify(calls: seq<Call>, outcomes: seq<Outcome>): (r: Option<Status>)
    requires |calls| == |outcomes|
  {
    if calls == [] then None
    else
      var n := |calls| - 1;
      if calls[n].Verify? then Some(outcomes[n].rc) else LatestVerify(calls[..n], outcomes[..n])
  }

  /** Storing a plan, and compiling and publishing a binding. */
  predicate Mutation(e: Effect) { e.PlanStored? || e.BindingCompiled? }

  lemma {:induction false} OutcomesAt(c: Context, calls: seq<Call>, k: nat)
    requires k < |calls|
    ensures Outcomes(c, calls[..k]) == Outcomes(c, calls)[..k]
    ensures Outcomes(c, calls)[k] == Answer(c.(verified := FlagAfter(c, calls[..k])), calls[k])
    decreases calls
  {
    if k > 0 {
      var c1 := c.(verified := Answer(c, calls[0]).verified);
      OutcomesAt(c1, calls[1..], k - 1);
      assert calls[..k][1..] == calls[1..][..k - 1];
      FlagStep(c, calls[..k]);
    } else {
      assert calls[..0] == [];
    }
  }

  /** The flag after some calls. */
  function FlagAfter(c: Context, calls: seq<Call>): bool {
    if calls == [] then c.verified else Outcomes(c, calls)[|calls| - 1].verified
  }

  lemma FlagStep(c: Context, calls: seq<Call>)
    requires calls != []
    ensures FlagAfter(c, calls) == FlagAfter(c.(verified := Answer(c, calls[0]).verified), calls[1..])
  {
  }

  /** On a fresh context the flag is the success of the latest verification. */
  lemma {:induction false} FlagIsLatestVerify(dryRun: bool, rebind: bool, calls: seq<Call>)
    ensures var c := Context(dryRun, rebind, false);
            FlagAfter(c, calls) <==> LatestVerify(calls, Outcomes(c, calls)) == Some(Ok)
    decreases calls
  {
    var c := Context(dryRun, rebind, false);
    if calls != [] {
      var n := |calls| - 1;
      FlagIsLatestVerify(dryRun, rebind, calls[..n]);
      OutcomesAt(c, calls, n);
    }
  }

  /** Over every sequence of calls: storage and publication happen only under a successful latest
      verification; storage never on a rebind context; compilation only for a matching plan,
      artifact and imatrix; and a dry run verifies nothing and has no effect at all. */
  lemma GatedMutation(dryRun: bool, rebind: bool, calls: seq<Call>, k: nat, e: nat)
    requires k < |calls|
    requires e < |Outcomes(Context(dryRun, rebind, false), calls)[k].effects|
    ensures var os := Outcomes(Context(dryRun, rebind, false), calls);
            var effect := os[k].effects[e];
            && !dryRun
            && (Mutation(effect) ==> LatestVerify(calls[..k], os[..k]) == Some(Ok))
            && (effect.PlanStored? ==> !rebind)
            && (effect.BindingCompiled? ==>
                  && effect.existing.Compared? && effect.existing.imatrix
                  && Matches(Some(effect.existing.plan), Some(effect.existing.admission))
                  && Mismatch(Some(effect.existing.plan), Some(effect.existing.admission)).None?)
  {
    var c := Context(dryRun, rebind, false);
    OutcomesAt(c, calls, k);
    FlagIsLatestVerify(dryRun, rebind, calls[..k]);
  }

  lemma {:induction false} DryRunStaysUnverified(rebind: bool, calls: seq<Call>)
    ensures !FlagAfter(Context(true, rebind, false), calls)
    ensures forall k :: 0 <= k < |calls| ==>
              Outcomes(Context(true, rebind, false), calls)[k].effects == []
              && Outcomes(Context(true, rebind, false), calls)[k].rc == StateError
    decreases calls
  {
    if calls != [] {
      FlagStep(Context(true, rebind, false), calls);
      DryRunStaysUnverified(rebind, calls[1..]);
    }
  }

  // ---- what every call of every sequence answers ----

  /** The latest verification among the calls found its directories and its source in order. */
  predicate Trusted(calls: seq<Call>) {
    exists j :: 0 <= j < |calls| && calls[j] == Verify(Ok, Ok) && forall i :: j < i < |calls| ==> !calls[i].Verify?
  }

  lemma TrustedMore(calls: seq<Call>, call: Call)
    ensures Trusted(calls + [call]) <==> if call.Verify? then call == Verify(Ok, Ok) else Trusted(calls)
  {
    var all := calls + [call];
    if call == Verify(Ok, Ok) { assert all[|calls|] == Verify(Ok, Ok); }
    if !call.Verify? && Trusted(calls) {
      var j :| 0 <= j < |calls| && calls[j] == Verify(Ok, Ok) && forall i :: j < i < |calls| ==> !calls[i].Verify?;
      assert all[j] == Verify(Ok, Ok);
    }
    if Trusted(all) {
      var j :| 0 <= j < |all| && all[j] == Verify(Ok, Ok) && forall i :: j < i < |all| ==> !all[i].Verify?;
      if j < |calls| {
        assert !all[|calls|].Verify?;
        assert calls[j] == all[j] && forall i :: j < i < |calls| ==> calls[i] == all[i];
      }
    }
  }

  /** The flag holds exactly when the context may mutate and its latest verification succeeded. */
  lemma {:induction false} FlagExactly(dryRun: bool, rebind: bool, calls: seq<Call>)
    ensures FlagAfter(Context(dryRun, rebind, false), calls) <==> !dryRun && Trusted(calls)
    decreases calls
  {
    var c := Context(dryRun, rebind, false);
    if calls != [] {
      var n := |calls| - 1;
      FlagExactly(dryRun, rebind, calls[..n]);
      OutcomesAt(c, calls, n);
      TrustedMore(calls[..n], calls[n]);
      assert calls == calls[..n] + [calls[n]];
    }
  }

  /** The artifact is the one the plan describes. */
  predicate Fitting(e: Existing) { e.Compared? && Matches(Some(e.plan), Some(e.admission)) && e.imatrix }

  /** What call k answers and does, told from the calls before it. */
  predicate AnswersAs(dryRun: bool, rebind: bool, before: seq<Call>, call: Call, o: Outcome) {
    var may := !dryRun && Trusted(before);
    match call
    case Verify(parents, source) =>
      && o.verified == (!dryRun && parents == Ok && source == Ok)
      && o.rc == (if dryRun then StateError else if parents != Ok then parents else source)
      && o.effects == (if dryRun then [] else if parents != Ok then [ParentsCreated]
                       else [ParentsCreated, SourceVerified(source == Ok)])
    case StorePlan(store) =>
      && o.verified == may
      && o.rc == (if may && !rebind then store else StateError)
      && o.effects == (if may && !rebind then [PlanStored] else [])
    case Cached(arguments, _) =>
      o.verified == may && o.rc == (if may && arguments then Ok else StateError) && o.effects == []
    case ArtifactVerify(existing) =>
      && o.verified == may && o.effects == []
      && (if !may then o.rc == StateError
          else if existing.CallRefused? then o.rc == Refused(existing.code)
          else o.rc == if Fitting(existing) then Ok else FormatError)
    case BindingPublish(receipt, existing, compile) =>
      && o.verified == may
      && o.effects == (if may && receipt && Fitting(existing) then [BindingCompiled(existing)] else [])
      && (if !may || !receipt then o.rc == StateError
          else if existing.CallRefused? then o.rc == Refused(existing.code)
          else o.rc == if Fitting(existing) then compile else FormatError)
  }

  lemma OutcomeExactly(dryRun: bool, rebind: bool, calls: seq<Call>, k: nat)
    requires k < |calls|
    ensures AnswersAs(dryRun, rebind, calls[..k], calls[k], Outcomes(Context(dryRun, rebind, false), calls)[k])
  {
    var c := Context(dryRun, rebind, false);
    OutcomesAt(c, calls, k);
    FlagExactly(dryRun, rebind, calls[..k]);
  }
}
