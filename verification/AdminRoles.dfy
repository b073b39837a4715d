/**
 Admin roles: the live resolution of an effective role, the permission each approval
 action needs, and the amount tiers that size a quorum.
 */
module AdminRoles {
  import opened Common

  datatype AdminRole = SuperAdmin | FinanceAdmin | SupportAdmin | ComplianceAdmin | ReadOnlyAdmin

  datatype PrimaryRole = User | Vendor | Admin

  datatype BanStatus = Active | Banned24h | Banned1w | BannedIndefinitely

  datatype Account = Account(role: PrimaryRole, isDeleted: bool, ban: BanStatus, tokenVersion: nat)

  /** An assignment row holds a string; only strings in the role catalog name a role. */
  datatype AssignedRole = Catalog(role: AdminRole) | Unrecognised

  datatype EffectiveRole = NoRole | LegacyAdmin | Holds(role: AdminRole)

  datatype Directory = Directory(accounts: map<int, Account>, assignments: map<int, AssignedRole>)

  /** `resolveEffectiveAdminRole`: fails closed on missing, deleted, banned and demoted accounts. */
  function Resolve(d: Directory, userId: int): EffectiveRole {
    if userId !in d.accounts || d.accounts[userId].isDeleted then NoRole
    else if d.accounts[userId].ban != Active then NoRole
    else if d.accounts[userId].role != Admin then NoRole
    else if userId in d.assignments && d.assignments[userId].Catalog? then Holds(d.assignments[userId].role)
    else LegacyAdmin
  }

  datatype ActionType = Withdrawal | SusuPayout | VendorTierChange | UserBan | FeeOverride | ManualBalanceAdjust

  /** The four catalog permissions that approval actions consult. */
  datatype Permission = WithdrawalsApprove | SusuApprovePayout | UsersBan | FeesManage

  function CatalogPermissions(role: AdminRole): set<Permission> {
    match role
    case SuperAdmin => {WithdrawalsApprove, SusuApprovePayout, UsersBan, FeesManage}
    case FinanceAdmin => {WithdrawalsApprove, FeesManage, SusuApprovePayout}
    case SupportAdmin => {UsersBan}
    case ComplianceAdmin => {WithdrawalsApprove}
    case ReadOnlyAdmin => {}
  }

  predicate HasPermission(role: EffectiveRole, permission: Permission) {
    match role
    case NoRole => false
    case LegacyAdmin => true
    case Holds(r) => permission in CatalogPermissions(r)
  }

  predicate HasActionPermission(role: EffectiveRole, action: ActionType) {
    match action
    case VendorTierChange => role == LegacyAdmin || role == Holds(SuperAdmin)
    case Withdrawal => HasPermission(role, WithdrawalsApprove)
    case SusuPayout => HasPermission(role, SusuApprovePayout)
    case UserBan => HasPermission(role, UsersBan)
    case FeeOverride => HasPermission(role, FeesManage)
    case ManualBalanceAdjust => HasPermission(role, FeesManage)
  }

  datatype Tier = Tier(threshold: int, requiredApprovals: nat, requiredRoles: set<AdminRole>)

  const QUORUM_ROLES: set<AdminRole> := {SuperAdmin, FinanceAdmin, ComplianceAdmin}

  const TIERS: seq<Tier> := [
    Tier(50_000 * UNIT, 3, QUORUM_ROLES),
    Tier(10_000 * UNIT, 2, QUORUM_ROLES),
    Tier(1_000 * UNIT, 1, {}),
    Tier(0, 0, {})
  ]

  /** `getApprovalTier`: the first tier of the table the amount reaches, or the last one. */
  function TierOf(amount: int): Tier {
    if amount >= TIERS[0].threshold then TIERS[0]
    else if amount >= TIERS[1].threshold then TIERS[1]
    else if amount >= TIERS[2].threshold then TIERS[2]
    else TIERS[3]
  }

  /** `getApprovalRequirement(...).requiredApprovals`: bans and tier changes never auto-approve. */
  function RequiredApprovals(action: ActionType, amount: int): nat {
    if action == UserBan || action == VendorTierChange then 1 else TierOf(amount).requiredApprovals
  }

  /** `isApprovalRoleEligible`; an empty role list admits any role. */
  predicate TierEligible(role: EffectiveRole, requiredRoles: set<AdminRole>) {
    requiredRoles == {} || role == LegacyAdmin || (role.Holds? && role.role in requiredRoles)
  }

  predicate FinanceOrCompliance(role: EffectiveRole) {
    role == Holds(FinanceAdmin) || role == Holds(ComplianceAdmin)
  }

  /** From 10,000 up, the roles a tier admits are exactly the roles that may approve withdrawals at all. */
  lemma QuorumRolesAreWithdrawalApprovers(role: EffectiveRole, amount: int)
    requires amount >= 10_000 * UNIT
    ensures HasActionPermission(role, Withdrawal) <==> TierEligible(role, TierOf(amount).requiredRoles)
  {
    assert SuperAdmin in QUORUM_ROLES;
  }

  // ---------------------------------------------------------------- the rules, read off the other way

  predicate IsLiveAdmin(d: Directory, userId: int) {
    userId in d.accounts && !d.accounts[userId].isDeleted && d.accounts[userId].ban == Active
    && d.accounts[userId].role == Admin
  }

  /** Exactly the live ADMIN accounts hold a role: the one assigned, if the catalog knows it, else the legacy one. */
  lemma RoleExactly(d: Directory, userId: int)
    ensures Resolve(d, userId) != NoRole <==> IsLiveAdmin(d, userId)
    ensures forall r :: Resolve(d, userId) == Holds(r) <==>
              IsLiveAdmin(d, userId) && userId in d.assignments && d.assignments[userId] == Catalog(r)
  {
  }

  /** Per action: the catalog roles that may request, approve or reject it besides Super and legacy admins. */
  function Specialists(action: ActionType): set<AdminRole> {
    match action
    case Withdrawal => {FinanceAdmin, ComplianceAdmin}
    case SusuPayout => {FinanceAdmin}
    case FeeOverride => {FinanceAdmin}
    case ManualBalanceAdjust => {FinanceAdmin}
    case UserBan => {SupportAdmin}
    case VendorTierChange => {}
  }

  lemma WhoMayAct(role: EffectiveRole, action: ActionType)
    ensures HasActionPermission(role, action) <==>
              role == LegacyAdmin || role == Holds(SuperAdmin) || (role.Holds? && role.role in Specialists(action))
  {
  }

  /** None below 1,000, one from there, two from 10,000, three from 50,000; a ban or tier change always one. */
  lemma ApprovalsNeeded(action: ActionType, amount: int)
    ensures RequiredApprovals(action, amount)
         == if action == UserBan || action == VendorTierChange then 1
            else (if amount >= 1_000 * UNIT then 1 else 0) + (if amount >= 10_000 * UNIT then 1 else 0)
                 + (if amount >= 50_000 * UNIT then 1 else 0)
  {
  }

  /** Below 10,000 the tier admits every role; from there only those who may approve withdrawals. */
  lemma WhoTheTierAdmits(role: EffectiveRole, amount: int)
    ensures TierEligible(role, TierOf(amount).requiredRoles) <==>
              || amount < 10_000 * UNIT || role == LegacyAdmin
              || role == Holds(SuperAdmin) || role == Holds(FinanceAdmin) || role == Holds(ComplianceAdmin)
  {
    assert SuperAdmin in QUORUM_ROLES;
  }
}
