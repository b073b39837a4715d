/** The role handlers as they run inside their locked transaction. */
module RoleDesk {
  import opened Common
  import opened Finite
  import opened AdminRoles
  import opened RoleProvisioning

  class Desk {
    var directory: Directory
    var audit: seq<AuditRow>
    ghost var original: Directory

    constructor (directory: Directory)
      ensures Valid() && View() == Roster(directory, []) && original == directory
    {
      this.directory, audit, original := directory, [], directory;
    }

    /** The audit log alone tells every account's effective role, and its rows chain. */
    ghost predicate Valid()
      reads this
    {
      RolesFollowAudit(directory, audit, original) && Chained(audit, original)
    }

    /** Nobody's effective role changed but the target's, and a Super Admin there was is one there is. */
    ghost predicate OnlyTargetChanged(before: Directory, target: int)
      reads this
    {
      && (forall u :: u != target ==> Resolve(directory, u) == Resolve(before, u))
      && (HasActiveSuper(before) ==> HasActiveSuper(directory))
    }

    ghost function View(): Roster
      reads this
    {
      Roster(directory, audit)
    }

    /** The lockout query: how many other live Super Admins there are. */
    method CountOtherSupers(target: int) returns (remaining: nat)
      ensures remaining == |OtherSupers(directory, target)|
    {
      var counted, rest := {}, directory.assignments.Keys;
      while rest != {}
        invariant rest <= directory.assignments.Keys
        invariant counted == set u | u in directory.assignments && u !in rest && u != target
                                     && IsLiveSuper(directory, u)
        decreases |rest|
      {
        EmptyOrInhabited(rest);
        var u :| u in rest;
        rest := rest - {u};
        if u != target && IsLiveSuper(directory, u) {
          counted := counted + {u};
        }
      }
      assert counted == OtherSupers(directory, target);
      remaining := |counted|;
    }

    /** `authorizeMutation` and `loadTarget`. */
    method CheckTarget(actor: int, target: int) returns (refused: Option<Error>)
      ensures refused == TargetError(directory, actor, target)
      ensures refused.None? ==> |OtherSupers(directory, target)| >= 1 && Resolve(directory, target) != NoRole
      ensures refused.None? <==> MayManage(directory, actor, target)
    {
      RoleExactly(directory, actor);
      if Resolve(directory, actor) == Holds(SuperAdmin) && actor != target {
        ActorCounts(directory, actor, target);
      }
      if Resolve(directory, actor) != Holds(SuperAdmin) { return Some(SuperAdminRequired); }
      if target <= 0 { return Some(InvalidId); }
      if target == actor { return Some(SelfManagement); }
      if target !in directory.accounts || directory.accounts[target].isDeleted { return Some(TargetNotFound); }
      if directory.accounts[target].ban != Active { return Some(TargetNotActive); }
      if directory.accounts[target].role != Admin { return Some(TargetNotAdmin); }
      refused := None;
    }

    method AssignRows(actor: int, target: int, requested: Option<AdminRole>) returns (error: Option<Error>)
      modifies this`directory, this`audit
      ensures var r := old(Assign(View(), actor, target, requested));
              if r.Ok? then error == None && View() == r.value else error == Some(r.error) && View() == old(View())
    {
      if requested.None? { return Some(InvalidRole); }
      var refused := CheckTarget(actor, target);
      if refused.Some? { return refused; }
      var before := Resolve(directory, target);
      if before == Holds(SuperAdmin) && requested.value != SuperAdmin {
        var remaining := CountOtherSupers(target);
        if remaining < 1 { return Some(Lockout); }
      }
      var after := directory.(assignments := directory.assignments[target := Catalog(requested.value)]);
      if Resolve(after, target) != Holds(requested.value) { return Some(TransitionInconsistent); }
      directory := after;
      audit := audit + [AuditRow(actor, target, before, Holds(requested.value))];
      error := None;
    }

    method DeprovisionRows(actor: int, target: int) returns (error: Option<Error>)
      modifies this`directory, this`audit
      ensures var r := old(Deprovision(View(), actor, target));
              if r.Ok? then error == None && View() == r.value else error == Some(r.error) && View() == old(View())
    {
      var refused := CheckTarget(actor, target);
      if refused.Some? { return refused; }
      var before := Resolve(directory, target);
      if before == Holds(SuperAdmin) {
        var remaining := CountOtherSupers(target);
        if remaining < 1 { return Some(Lockout); }
      }
      var account := directory.accounts[target];
      var stripped := Directory(
        directory.accounts[target := account.(role := User, tokenVersion := account.tokenVersion + 1)],
        directory.assignments - {target});
      if Resolve(stripped, target) != NoRole { return Some(DeprovisionIncomplete); }
      directory := stripped;
      audit := audit + [AuditRow(actor, target, before, NoRole)];
      error := None;
    }

    // -------------------------------------------------------------- what callers of the handlers may rely on

    lemma StepKeepsRoster(s: Roster, step: Step)
      requires s == View() && Valid()
      ensures var s' := Next(s, step);
              && RolesFollowAudit(s'.directory, s'.audit, original) && Chained(s'.audit, original)
              && (forall u :: u != step.target ==> Resolve(s'.directory, u) == Resolve(s.directory, u))
              && (HasActiveSuper(s.directory) ==> HasActiveSuper(s'.directory))
    {
      NextAudit(original, s, step);
      forall u | u != step.target
        ensures Resolve(Next(s, step).directory, u) == Resolve(s.directory, u)
      {
        OthersUntouched(s, step, u);
      }
      if HasActiveSuper(s.directory) {
        NextKeepsSuper(s, step);
      }
    }

    method AssignRole(actor: int, target: int, requested: Option<AdminRole>) returns (error: Option<Error>)
      requires Valid()
      modifies this`directory, this`audit
      ensures var r := old(Assign(View(), actor, target, requested));
              if r.Ok? then error == None && View() == r.value else error == Some(r.error) && View() == old(View())
      ensures error != Some(Lockout) && error != Some(TransitionInconsistent)
      ensures Valid() && OnlyTargetChanged(old(directory), target)
      ensures error.None? ==> Resolve(directory, target) == Holds(requested.value)
      ensures error.None? <==> requested.Some? && old(MayManage(directory, actor, target))
      ensures error.None? ==>
                && directory.accounts == old(directory.accounts)
                && directory.assignments == old(directory.assignments)[target := Catalog(requested.value)]
                && audit == old(audit) + [AuditRow(actor, target, Resolve(old(directory), target),
                                                   Holds(requested.value))]
    {
      ManageExactly(View(), actor, target, requested);
      GuardsNeverFire(View(), DoAssign(actor, target, requested));
      StepKeepsRoster(View(), DoAssign(actor, target, requested));
      error := AssignRows(actor, target, requested);
    }

    method DeprovisionAdmin(actor: int, target: int) returns (error: Option<Error>)
      requires Valid()
      modifies this`directory, this`audit
      ensures var r := old(Deprovision(View(), actor, target));
              if r.Ok? then error == None && View() == r.value else error == Some(r.error) && View() == old(View())
      ensures error != Some(Lockout) && error != Some(DeprovisionIncomplete)
      ensures Valid() && OnlyTargetChanged(old(directory), target)
      ensures error.None? ==> Resolve(directory, target) == NoRole
      ensures error.None? ==>
                directory.accounts[target].tokenVersion == old(directory.accounts[target].tokenVersion) + 1
      ensures error.None? <==> old(MayManage(directory, actor, target))
      ensures error.None? ==>
                && directory.assignments == old(directory.assignments) - {target}
                && directory.accounts[target].role == User
                && audit == old(audit) + [AuditRow(actor, target, Resolve(old(directory), target), NoRole)]
                && forall u :: u in old(directory.accounts) && u != target ==>
                     u in directory.accounts && directory.accounts[u] == old(directory.accounts)[u]
    {
      ManageExactly(View(), actor, target, None);
      GuardsNeverFire(View(), DoDeprovision(actor, target));
      StepKeepsRoster(View(), DoDeprovision(actor, target));
      error := DeprovisionRows(actor, target);
    }
  }
}
