/** Assigning and removing admin roles. All mutations serialize on one advisory lock, so each is one step. */
module RoleProvisioning {
  import opened Common
  import opened AdminRoles

  datatype AuditRow = AuditRow(actor: int, target: int, before: EffectiveRole, after: EffectiveRole)

  datatype Roster = Roster(directory: Directory, audit: seq<AuditRow>)

  datatype Error =
    | InvalidRole | SuperAdminRequired | InvalidId | SelfManagement | TargetNotFound | TargetNotActive
    | TargetNotAdmin | Lockout | TransitionInconsistent | DeprovisionIncomplete

  datatype Result<+T> = Ok(value: T) | Err(error: Error)

  /** `loadTarget`, after `authorizeMutation`: why a target is refused, if it is. */
  function TargetError(d: Directory, actor: int, target: int): Option<Error> {
    if Resolve(d, actor) != Holds(SuperAdmin) then Some(SuperAdminRequired)
    else if target <= 0 then Some(InvalidId)
    else if target == actor then Some(SelfManagement)
    else if target !in d.accounts || d.accounts[target].isDeleted then Some(TargetNotFound)
    else if d.accounts[target].ban != Active then Some(TargetNotActive)
    else if d.accounts[target].role != Admin then Some(TargetNotAdmin)
    else None
  }

  /** The rows the lockout query counts: other accounts whose live assignment is SUPER_ADMIN. */
  function OtherSupers(d: Directory, target: int): set<int> {
    set u | u in d.assignments && u != target && IsLiveSuper(d, u)
  }

  predicate IsLiveSuper(d: Directory, u: int) {
    u in d.assignments && d.assignments[u] == Catalog(SuperAdmin)
    && u in d.accounts && d.accounts[u].role == Admin && !d.accounts[u].isDeleted && d.accounts[u].ban == Active
  }

  predicate LockoutSafe(d: Directory, target: int, removesSuper: bool) {
    removesSuper ==> |OtherSupers(d, target)| >= 1
  }

  function WithAssignment(d: Directory, target: int, role: AdminRole): Directory {
    d.(assignments := d.assignments[target := Catalog(role)])
  }

  /** `assignAdminRole`, every refusal in its order, the two self-checks included. */
  function Assign(s: Roster, actor: int, target: int, requested: Option<AdminRole>): Result<Roster> {
    if requested.None? then Err(InvalidRole)
    else
      var role := requested.value;
      var refused := TargetError(s.directory, actor, target);
      if refused.Some? then Err(refused.value)
      else
        var before := Resolve(s.directory, target);
        if !LockoutSafe(s.directory, target, before == Holds(SuperAdmin) && role != SuperAdmin) then Err(Lockout)
        else
          var directory := WithAssignment(s.directory, target, role);
          if Resolve(directory, target) != Holds(role) then Err(TransitionInconsistent)
          else Ok(Roster(directory, s.audit + [AuditRow(actor, target, before, Holds(role))]))
  }

  function Stripped(d: Directory, target: int): Directory
    requires target in d.accounts
  {
    var account := d.accounts[target];
    Directory(d.accounts[target := account.(role := User, tokenVersion := account.tokenVersion + 1)],
              d.assignments - {target})
  }

  /** `deprovisionAdmin`: assignment gone, primary role USER, outstanding tokens invalidated, together. */
  function Deprovision(s: Roster, actor: int, target: int): Result<Roster> {
    var refused := TargetError(s.directory, actor, target);
    if refused.Some? then Err(refused.value)
    else
      var before := Resolve(s.directory, target);
      if !LockoutSafe(s.directory, target, before == Holds(SuperAdmin)) then Err(Lockout)
      else
        var directory := Stripped(s.directory, target);
        if Resolve(directory, target) != NoRole then Err(DeprovisionIncomplete)
        else Ok(Roster(directory, s.audit + [AuditRow(actor, target, before, NoRole)]))
  }

  // ---------------------------------------------------------------- runs

  datatype Step =
    | DoAssign(actor: int, target: int, requested: Option<AdminRole>)
    | DoDeprovision(actor: int, target: int)

  function Outcome(s: Roster, step: Step): Result<Roster> {
    match step
    case DoAssign(actor, target, requested) => Assign(s, actor, target, requested)
    case DoDeprovision(actor, target) => Deprovision(s, actor, target)
  }

  function Next(s: Roster, step: Step): Roster {
    if Outcome(s, step).Ok? then Outcome(s, step).value else s
  }

  function Run(s: Roster, steps: seq<Step>): Roster {
    if steps == [] then s else Next(Run(s, steps[..|steps| - 1]), steps[|steps| - 1])
  }

  // ---------------------------------------------------------------- what holds

  predicate HasActiveSuper(d: Directory) {
    exists u :: u in d.accounts && Resolve(d, u) == Holds(SuperAdmin)
  }

  lemma SuperIsLive(d: Directory, u: int)
    ensures Resolve(d, u) == Holds(SuperAdmin) <==> IsLiveSuper(d, u)
  {
  }

  /** The lockout query counts exactly the other accounts whose effective role is SUPER_ADMIN. */
  lemma OtherSupersExactly(d: Directory, target: int, u: int)
    ensures u in OtherSupers(d, target) <==> u != target && Resolve(d, u) == Holds(SuperAdmin)
  {
    SuperIsLive(d, u);
  }

  /** Once the actor is authorised and is not the target, the lockout query counts at least the actor. */
  lemma ActorCounts(d: Directory, actor: int, target: int)
    requires Resolve(d, actor) == Holds(SuperAdmin) && actor != target
    ensures |OtherSupers(d, target)| >= 1
  {
    SuperIsLive(d, actor);
    assert actor in OtherSupers(d, target);
  }

  /** The lockout check and both post-transition checks never fire. */
  lemma GuardsNeverFire(s: Roster, step: Step)
    ensures Outcome(s, step) != Err(Lockout)
    ensures Outcome(s, step) != Err(TransitionInconsistent)
    ensures Outcome(s, step) != Err(DeprovisionIncomplete)
  {
    if TargetError(s.directory, step.actor, step.target).None? {
      ActorCounts(s.directory, step.actor, step.target);
    }
  }

  /** A live Super Admin acts on another account, an existing live ADMIN. */
  predicate MayManage(d: Directory, actor: int, target: int) {
    && IsLiveAdmin(d, actor) && actor in d.assignments && d.assignments[actor] == Catalog(SuperAdmin)
    && target > 0 && target != actor && IsLiveAdmin(d, target)
  }

  /** Exactly those may assign a catalog role or deprovision; nothing else ever stands in the way. */
  lemma ManageExactly(s: Roster, actor: int, target: int, requested: Option<AdminRole>)
    ensures Assign(s, actor, target, requested).Ok? <==> requested.Some? && MayManage(s.directory, actor, target)
    ensures Deprovision(s, actor, target).Ok? <==> MayManage(s.directory, actor, target)
  {
    RoleExactly(s.directory, actor);
    GuardsNeverFire(s, DoAssign(actor, target, requested));
    GuardsNeverFire(s, DoDeprovision(actor, target));
  }

  /** A mutation touches its target's effective role and nobody else's. */
  lemma OthersUntouched(s: Roster, step: Step, u: int)
    requires u != step.target
    ensures Resolve(Next(s, step).directory, u) == Resolve(s.directory, u)
  {
  }

  lemma NextKeepsSuper(s: Roster, step: Step)
    requires HasActiveSuper(s.directory)
    ensures HasActiveSuper(Next(s, step).directory)
  {
    if Outcome(s, step).Ok? {
      OthersUntouched(s, step, step.actor);
      assert step.actor in Next(s, step).directory.accounts;
    }
  }

  /** From a directory with an active Super Admin, every run keeps one. */
  lemma {:induction false} SuperAdminSurvives(s: Roster, steps: seq<Step>)
    requires HasActiveSuper(s.directory)
    ensures HasActiveSuper(Run(s, steps).directory)
  {
    if steps != [] {
      SuperAdminSurvives(s, steps[..|steps| - 1]);
      NextKeepsSuper(Run(s, steps[..|steps| - 1]), steps[|steps| - 1]);
    }
  }

  /** The newest audit row about an account. */
  function Latest(audit: seq<AuditRow>, u: int): Option<AuditRow> {
    if audit == [] then None
    else if audit[|audit| - 1].target == u then Some(audit[|audit| - 1])
    else Latest(audit[..|audit| - 1], u)
  }

  /** The role an account's newest audit row left it with, or its original one. */
  function RoleByAudit(audit: seq<AuditRow>, original: Directory, u: int): EffectiveRole {
    match Latest(audit, u)
    case None => Resolve(original, u)
    case Some(row) => row.after
  }

  /** Each row starts from the role the account's previous row left, or from its original role. */
  predicate Chained(audit: seq<AuditRow>, original: Directory) {
    forall i :: 0 <= i < |audit| ==> audit[i].before == RoleByAudit(audit[..i], original, audit[i].target)
  }

  /** What one more row does to the newest row about an account. */
  lemma LatestAppend(audit: seq<AuditRow>, row: AuditRow, u: int)
    ensures Latest(audit + [row], u) == if row.target == u then Some(row) else Latest(audit, u)
  {
    assert (audit + [row])[..|audit|] == audit;
  }

  lemma ChainedAppend(audit: seq<AuditRow>, row: AuditRow, original: Directory)
    requires Chained(audit, original) && row.before == RoleByAudit(audit, original, row.target)
    ensures Chained(audit + [row], original)
  {
    var longer := audit + [row];
    forall i | 0 <= i < |longer|
      ensures longer[i].before == RoleByAudit(longer[..i], original, longer[i].target)
    {
      if i < |audit| {
        assert longer[..i] == audit[..i] && longer[i] == audit[i];
      } else {
        assert longer[..i] == audit;
      }
    }
  }

  /** A committed step appends exactly the row from the target's old effective role to its new one. */
  lemma StepAppendsRow(s: Roster, step: Step)
    requires Outcome(s, step).Ok?
    ensures var s' := Next(s, step);
            s'.audit == s.audit + [AuditRow(step.actor, step.target, Resolve(s.directory, step.target),
                                            Resolve(s'.directory, step.target))]
  {
  }

  /** The audit log alone tells every effective role. */
  ghost predicate RolesFollowAudit(d: Directory, audit: seq<AuditRow>, original: Directory) {
    forall u :: Resolve(d, u) == RoleByAudit(audit, original, u)
  }

  lemma {:induction false} NextAudit(original: Directory, s: Roster, step: Step)
    requires RolesFollowAudit(s.directory, s.audit, original) && Chained(s.audit, original)
    ensures RolesFollowAudit(Next(s, step).directory, Next(s, step).audit, original)
    ensures Chained(Next(s, step).audit, original)
  {
    if Outcome(s, step).Ok? {
      var s' := Next(s, step);
      var (before, after) := (Resolve(s.directory, step.target), Resolve(s'.directory, step.target));
      var row := AuditRow(step.actor, step.target, before, after);
      StepAppendsRow(s, step);
      ChainedAppend(s.audit, row, original);
      forall u
        ensures Resolve(s'.directory, u) == RoleByAudit(s'.audit, original, u)
      {
        LatestAppend(s.audit, row, u);
        if u != step.target {
          OthersUntouched(s, step, u);
        }
      }
    }
  }

  /** Over runs of the two handlers the audit log alone determines every effective role, and its rows chain. */
  lemma {:induction false} AuditDeterminesRoles(original: Directory, steps: seq<Step>)
    ensures var s := Run(Roster(original, []), steps);
            RolesFollowAudit(s.directory, s.audit, original) && Chained(s.audit, original)
  {
    if steps != [] {
      AuditDeterminesRoles(original, steps[..|steps| - 1]);
      NextAudit(original, Run(Roster(original, []), steps[..|steps| - 1]), steps[|steps| - 1]);
    }
  }
}
