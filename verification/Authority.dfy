/** Role administration and the two-step admin handover of the governor
    (contracts/governor/src/lib.rs, contracts/governor/src/role.rs). */
module Authority {
  import opened Base
  import opened Rbac

  const MAX_ROLE_MEMBERS_PAGE_SIZE: nat := 100

  datatype Role = Admin | FeeManager | RateManager | Pauser | Executor

  datatype Error =
    | AlreadyInitialized | NotAuthorized | InvalidParam | LastAdminProtected
    | AdminTransferAlreadyInProgress | NoPendingAuthority | NotPendingAuthority

  /** Members whose assignment is active, in index order. */
  function ActiveIn(all: seq<Address>, grants: Assignments<Role>, role: Role, now: nat): seq<Address> {
    if all == [] then []
    else
      var a := all[|all| - 1];
      ActiveIn(all[..|all| - 1], grants, role, now) + if Active(grants, role, a, now) then [a] else []
  }

  lemma {:induction false} ActiveInSelects(all: seq<Address>, grants: Assignments<Role>, role: Role, now: nat)
    ensures forall a :: a in ActiveIn(all, grants, role, now) <==> a in all && Active(grants, role, a, now)
    ensures NoDuplicates(all) ==> NoDuplicates(ActiveIn(all, grants, role, now))
  {
    if all != [] {
      var n := |all| - 1;
      ActiveInSelects(all[..n], grants, role, now);
      assert all == all[..n] + [all[n]];
      if NoDuplicates(all) {
        assert all[n] !in all[..n];
      }
    }
  }

  /** Storage keys of a role for a list of accounts. */
  ghost function Keys(role: Role, accounts: seq<Address>): set<(Role, Address)> {
    set a | a in accounts :: (role, a)
  }

  lemma KeysStep(role: Role, accounts: seq<Address>, i: nat)
    requires i < |accounts|
    ensures Keys(role, accounts[..i + 1]) == Keys(role, accounts[..i]) + {(role, accounts[i])}
  {
  }

  /** No admin assignment ever expires, and once set up there is always an admin. */
  ghost predicate AdminsStand(grants: Assignments<Role>, adminCount: nat, initialized: bool) {
    && (forall a :: (Admin, a) in grants ==> grants[(Admin, a)].None?)
    && (initialized ==> adminCount >= 1)
  }

  class Governor {
    const roles: RoleTable<Role>
    var initialized: bool
    var pendingAuthority: Option<Address>
    var pendingProposer: Option<Address>

    ghost predicate Valid()
      reads this, roles
    {
      && roles.Valid() && roles.admin == Admin
      && AdminsStand(roles.grants, roles.adminCount, initialized)
      && (pendingAuthority.Some? <==> pendingProposer.Some?)
      && (pendingAuthority.Some? ==> pendingAuthority != pendingProposer)
    }

    /** Everything a failed call must leave as it was. */
    ghost function State(): (Assignments<Role>, map<Role, seq<Address>>, nat, bool, Option<Address>, Option<Address>)
      reads this, roles
    {
      (roles.grants, roles.members, roles.adminCount, initialized, pendingAuthority, pendingProposer)
    }

    predicate IsAdmin(a: Address, now: nat)
      reads roles
    {
      roles.HasRole(Admin, a, now)
    }

    constructor ()
      ensures Valid() && !initialized && fresh(roles) && roles.grants == map[]
    {
      roles := new RoleTable(Admin);
      initialized, pendingAuthority, pendingProposer := false, None, None;
    }

    method Initialize(authority: Address, now: nat) returns (failure: Option<Error>)
      requires Valid()
      modifies this, roles
      ensures Valid()
      ensures failure.None? <==> !old(initialized)
      ensures failure.Some? ==> State() == old(State())
      ensures failure.None? ==>
                && initialized && pendingAuthority == old(pendingAuthority)
                && roles.grants == old(roles.grants)[(Admin, authority) := None][(FeeManager, authority) := None]
                                   [(RateManager, authority) := None][(Pauser, authority) := None]
    {
      if initialized {
        return Some(AlreadyInitialized);
      }
      initialized := true;
      var _ := roles.Grant(Admin, authority, now);
      AdminCounted(authority);
      var _ := roles.Grant(FeeManager, authority, now);
      var _ := roles.Grant(RateManager, authority, now);
      var _ := roles.Grant(Pauser, authority, now);
      failure := None;
    }

    /** A stored admin is counted. */
    lemma AdminCounted(a: Address)
      requires roles.Valid() && roles.admin == Admin && (Admin, a) in roles.grants
      ensures roles.adminCount >= 1
      ensures forall b :: b != a && (Admin, b) in roles.grants ==> roles.adminCount >= 2
    {
      assert Indexes(roles.grants, MembersIn(roles.members, Admin), Admin);
      var all := MembersIn(roles.members, Admin);
      assert a in all;
      forall b | b != a && (Admin, b) in roles.grants ensures roles.adminCount >= 2 {
        assert b in all;
      }
    }

    method GrantRoleWithExpiration(caller: Address, role: Role, account: Address, expiresAt: Option<nat>, now: nat)
      returns (failure: Option<Error>)
      requires Valid()
      modifies roles
      ensures Valid()
      ensures failure == if !old(IsAdmin(caller, now)) then Some(NotAuthorized)
                         else if (role == Admin && expiresAt.Some?) || (expiresAt.Some? && expiresAt.value <= now) then Some(InvalidParam)
                         else None
      ensures failure.Some? ==> State() == old(State())
      ensures failure.None? ==>
                && roles.grants == old(roles.grants)[(role, account) := expiresAt]
                && roles.HasRole(role, account, now)
    {
      if !IsAdmin(caller, now) {
        return Some(NotAuthorized);
      }
      if (role == Admin && expiresAt.Some?) || (expiresAt.Some? && expiresAt.value <= now) {
        return Some(InvalidParam);
      }
      var _ := roles.GrantWithExpiration(role, account, expiresAt, now);
      failure := None;
    }

    method GrantRoleBatch(caller: Address, role: Role, accounts: seq<Address>, now: nat) returns (failure: Option<Error>)
      requires Valid()
      modifies roles
      ensures Valid()
      ensures failure == if old(IsAdmin(caller, now)) then None else Some(NotAuthorized)
      ensures failure.Some? ==> State() == old(State())
      ensures failure.None? ==>
                && (forall r, a :: (r, a) in roles.grants <==> (r, a) in old(roles.grants) || (r == role && a in accounts))
                && (forall r, a :: (r, a) in roles.grants ==>
                      roles.grants[(r, a)] == if r == role && a in accounts then None else old(roles.grants)[(r, a)])
    {
      hide RolesOk, Granted;
      if !IsAdmin(caller, now) {
        return Some(NotAuthorized);
      }
      for i := 0 to |accounts|
        invariant Valid()
        invariant forall r, a :: (r, a) in roles.grants <==> (r, a) in old(roles.grants) || (r == role && a in accounts[..i])
        invariant forall r, a :: (r, a) in roles.grants ==>
                    roles.grants[(r, a)] == if r == role && a in accounts[..i] then None else old(roles.grants)[(r, a)]
      {
        assert accounts[..i + 1] == accounts[..i] + [accounts[i]];
        var _ := roles.Grant(role, accounts[i], now);
      }
      assert accounts[..|accounts|] == accounts;
      failure := None;
    }

    method RevokeRole(caller: Address, role: Role, account: Address, now: nat) returns (failure: Option<Error>)
      requires Valid()
      modifies roles
      ensures Valid()
      ensures failure == if !old(IsAdmin(caller, now)) then Some(NotAuthorized)
                         else if role == Admin && (Admin, account) in old(roles.grants) && old(roles.adminCount) == 1 then Some(LastAdminProtected)
                         else None
      ensures failure.Some? ==> State() == old(State())
      ensures failure.None? ==> roles.grants == old(roles.grants) - {(role, account)}
    {
      if !IsAdmin(caller, now) {
        return Some(NotAuthorized);
      }
      AdminCounted(caller);
      var removed := roles.Revoke(role, account, now);
      if removed.Err? {
        return Some(LastAdminProtected);
      }
      if role == Admin && removed == Ok(true) {
        assert roles.adminCount >= 1;
      }
      failure := None;
    }

    /** The host's rollback of the role storage. */
    method RestoreRoles(grants: Assignments<Role>, members: map<Role, seq<Address>>, adminCount: nat)
      modifies roles
      ensures roles.grants == grants && roles.members == members && roles.adminCount == adminCount
    {
      roles.grants, roles.members, roles.adminCount := grants, members, adminCount;
    }

    /** Someone is an admin as long as one is counted. */
    lemma SomeAdmin() returns (a: Address)
      requires roles.Valid() && roles.admin == Admin && roles.adminCount >= 1
      ensures (Admin, a) in roles.grants
    {
      assert Indexes(roles.grants, MembersIn(roles.members, Admin), Admin);
      a := MembersIn(roles.members, Admin)[0];
    }

    /** Once set up, the governor always has an admin who can act: its entry points never let one expire. */
    lemma AlwaysAnAdmin(now: nat) returns (a: Address)
      requires Valid() && initialized
      ensures IsAdmin(a, now)
    {
      a := SomeAdmin();
    }

    /** All revocations or none: the batch fails, and undoes itself, exactly when it names every admin. */
    method RevokeRoleBatch(caller: Address, role: Role, accounts: seq<Address>, now: nat) returns (failure: Option<Error>)
      requires Valid()
      modifies roles
      ensures Valid()
      ensures !old(IsAdmin(caller, now)) <==> failure == Some(NotAuthorized)
      ensures old(IsAdmin(caller, now)) ==>
                (failure.Some? <==> role == Admin && forall a :: (Admin, a) in old(roles.grants) ==> a in accounts)
      ensures failure.Some? ==> State() == old(State())
      ensures failure.None? ==> roles.grants == old(roles.grants) - Keys(role, accounts)
    {
      if !IsAdmin(caller, now) {
        return Some(NotAuthorized);
      }
      AdminCounted(caller);
      var grants, members, adminCount := roles.grants, roles.members, roles.adminCount;
      var failed := RevokeEach(role, accounts, now);
      if failed {
        RestoreRoles(grants, members, adminCount);
        return Some(LastAdminProtected);
      }
      ghost var left := SomeAdmin();
      failure := None;
    }

    /** The revocation loop, stopping at the last admin. */
    method RevokeEach(role: Role, accounts: seq<Address>, now: nat) returns (failed: bool)
      requires roles.Valid() && roles.admin == Admin && AdminsStand(roles.grants, roles.adminCount, true)
      modifies roles
      ensures roles.Valid()
      ensures failed ==> role == Admin && forall a :: (Admin, a) in old(roles.grants) ==> a in accounts
      ensures !failed ==> AdminsStand(roles.grants, roles.adminCount, true)
      ensures !failed ==> roles.grants == old(roles.grants) - Keys(role, accounts)
    {
      hide RolesOk;
      for i := 0 to |accounts|
        invariant roles.Valid() && AdminsStand(roles.grants, roles.adminCount, true)
        invariant roles.grants == old(roles.grants) - Keys(role, accounts[..i])
      {
        if (role, accounts[i]) in roles.grants && role == Admin {
          AdminCounted(accounts[i]);
        }
        KeysStep(role, accounts, i);
        ghost var before := roles.grants;
        var removed := roles.Revoke(role, accounts[i], now);
        if removed.Err? {
          forall a | (Admin, a) in old(roles.grants) ensures a in accounts {
            assert (Admin, a) in before ==> a == accounts[i];
          }
          return true;
        }
      }
      assert accounts[..|accounts|] == accounts;
      failed := false;
    }

    /** Hands the admin role over in one call. */
    method TransferAuthority(caller: Address, newAuthority: Address, now: nat) returns (failure: Option<Error>)
      requires Valid()
      modifies roles
      ensures Valid()
      ensures failure == if newAuthority == caller || newAuthority == ZERO_ADDRESS || old(IsAdmin(newAuthority, now)) then Some(InvalidParam)
                         else if !old(IsAdmin(caller, now)) then Some(NotAuthorized) else None
      ensures failure.Some? ==> State() == old(State())
      ensures failure.None? ==>
                && roles.grants == old(roles.grants)[(Admin, newAuthority) := None] - {(Admin, caller)}
                && IsAdmin(newAuthority, now) && !IsAdmin(caller, now)
    {
      if newAuthority == caller || newAuthority == ZERO_ADDRESS || IsAdmin(newAuthority, now) {
        return Some(InvalidParam);
      }
      if !IsAdmin(caller, now) {
        return Some(NotAuthorized);
      }
      Handover(newAuthority, caller, now);
      failure := None;
    }

    /** Grant first, revoke second: the revocation never meets the last admin. */
    method Handover(gaining: Address, losing: Address, now: nat)
      requires Valid() && gaining != losing
      modifies roles
      ensures Valid()
      ensures roles.grants == old(roles.grants)[(Admin, gaining) := None] - {(Admin, losing)}
    {
      hide RolesOk;
      var _ := roles.Grant(Admin, gaining, now);
      AdminCounted(gaining);
      if (Admin, losing) in roles.grants {
        assert roles.adminCount >= 2;
      }
      var removed := roles.Revoke(Admin, losing, now);
      if removed.Err? {
        assert false;  // the gaining account is an admin too
      }
      AdminCounted(gaining);
    }

    /** First step of the handover; at most one is pending. */
    method ProposeAuthority(caller: Address, newAuthority: Address, now: nat) returns (failure: Option<Error>)
      requires Valid()
      modifies this
      ensures Valid()
      ensures failure == if newAuthority == ZERO_ADDRESS || IsAdmin(newAuthority, now) then Some(InvalidParam)
                         else if !IsAdmin(caller, now) then Some(NotAuthorized)
                         else if old(pendingAuthority).Some? then Some(AdminTransferAlreadyInProgress) else None
      ensures failure.Some? ==> State() == old(State())
      ensures failure.None? ==> pendingAuthority == Some(newAuthority) && pendingProposer == Some(caller) && initialized == old(initialized)
    {
      if newAuthority == ZERO_ADDRESS || IsAdmin(newAuthority, now) {
        return Some(InvalidParam);
      }
      if !IsAdmin(caller, now) {
        return Some(NotAuthorized);
      }
      if pendingAuthority.Some? {
        return Some(AdminTransferAlreadyInProgress);
      }
      pendingAuthority, pendingProposer := Some(newAuthority), Some(caller);
      failure := None;
    }

    /** The same step under its newer name: other checks first, and the zero address is not refused. */
    method ProposeAdmin(proposer: Address, newAdmin: Address, now: nat) returns (failure: Option<Error>)
      requires Valid()
      modifies this
      ensures Valid()
      ensures failure == if !IsAdmin(proposer, now) then Some(NotAuthorized)
                         else if old(pendingAuthority).Some? then Some(AdminTransferAlreadyInProgress)
                         else if IsAdmin(newAdmin, now) then Some(InvalidParam) else None
      ensures failure.Some? ==> State() == old(State())
      ensures failure.None? ==> pendingAuthority == Some(newAdmin) && pendingProposer == Some(proposer) && initialized == old(initialized)
    {
      if !IsAdmin(proposer, now) {
        return Some(NotAuthorized);
      }
      if pendingAuthority.Some? {
        return Some(AdminTransferAlreadyInProgress);
      }
      if IsAdmin(newAdmin, now) {
        return Some(InvalidParam);
      }
      pendingAuthority, pendingProposer := Some(newAdmin), Some(proposer);
      failure := None;
    }

    /** Withdraws a pending handover. */
    method RevokeProposal(caller: Address, now: nat) returns (failure: Option<Error>)
      requires Valid()
      modifies this
      ensures Valid()
      ensures failure == if !IsAdmin(caller, now) then Some(NotAuthorized)
                         else if old(pendingAuthority).None? then Some(NoPendingAuthority) else None
      ensures failure.Some? ==> State() == old(State())
      ensures failure.None? ==> pendingAuthority.None? && initialized == old(initialized)
    {
      if !IsAdmin(caller, now) {
        return Some(NotAuthorized);
      }
      if pendingAuthority.None? {
        return Some(NoPendingAuthority);
      }
      pendingAuthority, pendingProposer := None, None;
      failure := None;
    }

    /** Second step: succeeds exactly for the pending account, whatever happened to the roles since the
        proposal. The claimer ends up an admin, the proposer does not, and the last-admin rule never
        stands in the way. */
    method AcceptAuthority(caller: Address, now: nat) returns (failure: Option<Error>)
      requires Valid()
      modifies this, roles
      ensures Valid()
      ensures failure == if old(pendingAuthority).None? then Some(NoPendingAuthority)
                         else if old(pendingAuthority) != Some(caller) then Some(NotPendingAuthority) else None
      ensures failure.Some? ==> State() == old(State())
      ensures failure.None? ==>
                && pendingAuthority.None? && initialized == old(initialized)
                && roles.grants == old(roles.grants)[(Admin, caller) := None] - {(Admin, old(pendingProposer).value)}
                && IsAdmin(caller, now) && !IsAdmin(old(pendingProposer).value, now)
    {
      if pendingAuthority.None? {
        return Some(NoPendingAuthority);
      }
      if caller != pendingAuthority.value {
        return Some(NotPendingAuthority);
      }
      var proposer := pendingProposer.value;
      Handover(caller, proposer, now);
      pendingAuthority, pendingProposer := None, None;
      failure := None;
    }

    /** A page of the active members of a role, and how many there are. */
    method RoleMembersPage(role: Role, offset: nat, limit: nat, now: nat) returns (page: seq<Address>, total: nat)
      ensures var active := ActiveIn(roles.RoleMembers(role), roles.grants, role, now);
              && total == |active|
              && page == active[Min(offset, total)..Min(Min(offset, total) + Min(limit, 100), total)]
    {
      var all := roles.RoleMembers(role);
      var active := [];
      for i := 0 to |all|
        invariant active == ActiveIn(all[..i], roles.grants, role, now)
      {
        assert all[..i + 1][..i] == all[..i];
        if roles.HasRole(role, all[i], now) {
          active := active + [all[i]];
        }
      }
      assert all[..|all|] == all;
      total := |active|;
      var start := Min(offset, total);
      var end := Min(start + Min(limit, MAX_ROLE_MEMBERS_PAGE_SIZE), total);
      page := [];
      for index := start to end
        invariant page == active[start..index]
      {
        assert active[start..index + 1] == active[start..index] + [active[index]];
        page := page + [active[index]];
      }
    }

    /** What enumeration shows: exactly the accounts holding the role now, each once. */
    lemma ListedAreHolders(role: Role, now: nat)
      requires Valid()
      ensures var active := ActiveIn(roles.RoleMembers(role), roles.grants, role, now);
              NoDuplicates(active) && forall a :: a in active <==> roles.HasRole(role, a, now)
    {
      assert Indexes(roles.grants, MembersIn(roles.members, role), role);
      ActiveInSelects(roles.RoleMembers(role), roles.grants, role, now);
    }
  }
}
