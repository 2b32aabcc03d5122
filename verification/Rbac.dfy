/** Role assignments with optional expiry, the member index of each role and the admin counter
    (contracts/common/src/rbac.rs). */
module Rbac {
  import opened Base

  datatype RbacError = LastAdmin

  /** Expiry of each stored assignment; `None` never expires. */
  type Assignments<R(==)> = map<(R, Address), Option<nat>>

  predicate Active<R(==)>(grants: Assignments<R>, role: R, account: Address, now: nat) {
    && (role, account) in grants
    && (grants[(role, account)].Some? ==> now < grants[(role, account)].value)
  }

  function MembersIn<R>(members: map<R, seq<Address>>, role: R): seq<Address> {
    if role in members then members[role] else []
  }

  /** The index of a role lists exactly the accounts with a stored assignment, expired ones
      included, each once. */
  ghost predicate Indexes<R>(grants: Assignments<R>, roster: seq<Address>, role: R) {
    NoDuplicates(roster) && forall a :: (role, a) in grants <==> a in roster
  }

  ghost predicate RolesOk<R(!new)>(grants: Assignments<R>, members: map<R, seq<Address>>, adminCount: nat, admin: R) {
    && (forall role :: Indexes(grants, MembersIn(members, role), role))
    && adminCount == |MembersIn(members, admin)|
  }

  /** The member indexes after a grant: a new account comes last. */
  function Granted<R>(members: map<R, seq<Address>>, grants: Assignments<R>, role: R, account: Address): map<R, seq<Address>> {
    if (role, account) in grants then members else members[role := MembersIn(members, role) + [account]]
  }

  lemma GrantKeeps<R(!new)>(grants: Assignments<R>, members: map<R, seq<Address>>, adminCount: nat, admin: R,
                            role: R, account: Address, expiry: Option<nat>)
    requires RolesOk(grants, members, adminCount, admin)
    ensures RolesOk(grants[(role, account) := expiry], Granted(members, grants, role, account),
                    if role == admin && (role, account) !in grants then adminCount + 1 else adminCount, admin)
  {
    forall r
      ensures Indexes(grants[(role, account) := expiry], MembersIn(Granted(members, grants, role, account), r), r)
    {
      assert Indexes(grants, MembersIn(members, r), r);
    }
  }

  lemma RevokeKeeps<R(!new)>(grants: Assignments<R>, members: map<R, seq<Address>>, adminCount: nat, admin: R, role: R, account: Address)
    requires RolesOk(grants, members, adminCount, admin) && (role, account) in grants
    ensures role == admin ==> adminCount >= 1
    ensures RolesOk(grants - {(role, account)}, members[role := Without(MembersIn(members, role), account)],
                    if role == admin then adminCount - 1 else adminCount, admin)
  {
    hide Without;
    var members' := members[role := Without(MembersIn(members, role), account)];
    forall r
      ensures Indexes(grants - {(role, account)}, MembersIn(members', r), r)
    {
      assert Indexes(grants, MembersIn(members, r), r);
      WithoutRemoves(MembersIn(members, r), account);
    }
    assert Indexes(grants, MembersIn(members, role), role);
    WithoutRemoves(MembersIn(members, role), account);
  }

  // ---- the last admin ----------------------------------------------------------------

  /** What revoking answers: the guard counts stored admins, expired ones included. */
  function Revocation<R(==)>(grants: Assignments<R>, adminCount: nat, admin: R, role: R, account: Address, now: nat): Result<bool, RbacError> {
    if (role, account) !in grants then Ok(false)
    else if role == admin && Active(grants, role, account, now) && adminCount <= 1 then Err(LastAdmin)
    else Ok(true)
  }

  ghost predicate SomeActive<R>(grants: Assignments<R>, role: R, now: nat) {
    exists a :: Active(grants, role, a, now)
  }

  /** Documented is that the final admin can never be revoked. Exactly when revoking an active admin succeeds
      and leaves no active one: no other is active, but an expired one is still stored. */
  lemma RevocationStrandsIff<R(!new)>(grants: Assignments<R>, members: map<R, seq<Address>>, adminCount: nat, admin: R, account: Address, now: nat)
    requires RolesOk(grants, members, adminCount, admin) && Active(grants, admin, account, now)
    ensures (Revocation(grants, adminCount, admin, admin, account, now) == Ok(true) && !SomeActive(grants - {(admin, account)}, admin, now))
            <==> (exists b :: b != account && (admin, b) in grants)
                 && (forall b :: b != account && (admin, b) in grants ==> !Active(grants, admin, b, now))
  {
    CountAboveOneIff(grants, members, adminCount, admin, account);
    var left := grants - {(admin, account)};
    forall b ensures Active(left, admin, b, now) <==> b != account && Active(grants, admin, b, now) {
    }
  }

  /** Another account is stored as admin exactly if more than one is counted. */
  lemma CountAboveOneIff<R(!new)>(grants: Assignments<R>, members: map<R, seq<Address>>, adminCount: nat, admin: R, account: Address)
    requires RolesOk(grants, members, adminCount, admin) && (admin, account) in grants
    ensures adminCount > 1 <==> exists b :: b != account && (admin, b) in grants
  {
    var all := MembersIn(members, admin);
    assert Indexes(grants, all, admin);
    assert account in all;
    if adminCount > 1 {
      var b := if all[0] == account then all[1] else all[0];
      assert b in all && (admin, b) in grants;
    }
    if b :| b != account && (admin, b) in grants {
      assert b in all;
    }
  }

  /** Where no admin assignment can expire, a revocation always leaves an active admin. */
  lemma RevocationLeavesAdmin<R(!new)>(grants: Assignments<R>, members: map<R, seq<Address>>, adminCount: nat, admin: R, role: R, account: Address, now: nat)
    requires RolesOk(grants, members, adminCount, admin) && SomeActive(grants, admin, now)
    requires forall a :: (admin, a) in grants ==> grants[(admin, a)].None?
    requires Revocation(grants, adminCount, admin, role, account, now) == Ok(true)
    ensures SomeActive(grants - {(role, account)}, admin, now)
  {
    var left := grants - {(role, account)};
    var keeper :| Active(grants, admin, keeper, now);
    if role == admin && keeper == account {
      CountAboveOneIff(grants, members, adminCount, admin, account);
      var b :| b != account && (admin, b) in grants;
      assert Active(left, admin, b, now);
    } else {
      assert Active(left, admin, keeper, now);
    }
  }

  /** One permanent and one expired admin: the permanent one is revoked, and nobody is left. */
  lemma OnlyActiveAdminIsRevoked<R(!new)>(admin: R, a: Address, b: Address)
    requires a != b
    ensures var grants := map[(admin, a) := None, (admin, b) := Some(5)];
            && RolesOk(grants, map[admin := [a, b]], 2, admin) && Active(grants, admin, a, 5)
            && Revocation(grants, 2, admin, admin, a, 5) == Ok(true)
            && !SomeActive(grants - {(admin, a)}, admin, 5)
  {
    var grants := map[(admin, a) := None, (admin, b) := Some(5)];
    forall r ensures Indexes(grants, MembersIn(map[admin := [a, b]], r), r) {
    }
  }

  class RoleTable<R(==,!new)> {
    const admin: R
    var grants: Assignments<R>
    var members: map<R, seq<Address>>
    var adminCount: nat

    ghost predicate Valid()
      reads this
    {
      RolesOk(grants, members, adminCount, admin)
    }

    predicate HasRole(role: R, account: Address, now: nat)
      reads this
    {
      Active(grants, role, account, now)
    }

    function RoleMembers(role: R): seq<Address>
      reads this
    {
      MembersIn(members, role)
    }

    constructor (admin: R)
      ensures Valid() && grants == map[] && adminCount == 0 && this.admin == admin
    {
      this.admin := admin;
      grants, members, adminCount := map[], map[], 0;
    }

    /** Grants a role, or renews a stored assignment in place; tells whether the account lacked it. */
    method GrantWithExpiration(role: R, account: Address, expiresAt: Option<nat>, now: nat) returns (granted: bool)
      requires Valid()
      modifies this
      ensures Valid()
      ensures grants == old(grants)[(role, account) := expiresAt]
      ensures members == Granted(old(members), old(grants), role, account)
      ensures RoleMembers(role) == old(RoleMembers(role)) + if (role, account) in old(grants) then [] else [account]
      ensures adminCount == old(adminCount) + if role == admin && (role, account) !in old(grants) then 1 else 0
      ensures granted <==> !old(HasRole(role, account, now))
      ensures forall t: nat :: HasRole(role, account, t) <==> expiresAt.None? || t < expiresAt.value
    {
      hide RolesOk;
      GrantKeeps(grants, members, adminCount, admin, role, account, expiresAt);
      var wasActive := HasRole(role, account, now);
      if wasActive || (role, account) in grants {
        grants := grants[(role, account) := expiresAt];
        return !wasActive;
      }
      grants := grants[(role, account) := expiresAt];
      if role == admin {
        adminCount := adminCount + 1;
      }
      members := members[role := RoleMembers(role) + [account]];
      granted := true;
    }

    /** Grants a role for good. */
    method Grant(role: R, account: Address, now: nat) returns (granted: bool)
      requires Valid()
      modifies this
      ensures Valid()
      ensures grants == old(grants)[(role, account) := None]
      ensures members == Granted(old(members), old(grants), role, account)
      ensures adminCount == old(adminCount) + if role == admin && (role, account) !in old(grants) then 1 else 0
      ensures granted <==> !old(HasRole(role, account, now))
    {
      granted := GrantWithExpiration(role, account, None, now);
    }

    method Rebuild(role: R, account: Address) returns (updated: seq<Address>)
      ensures updated == Without(RoleMembers(role), account)
    {
      updated := [];
      var all := RoleMembers(role);
      for i := 0 to |all|
        invariant updated == Without(all[..i], account)
      {
        assert all[..i + 1][..i] == all[..i];
        if all[i] != account {
          updated := updated + [all[i]];
        }
      }
      assert all[..|all|] == all;
    }

    /** Removes a stored assignment, active or expired, unless it is an active admin and the only one stored. */
    method Revoke(role: R, account: Address, now: nat) returns (r: Result<bool, RbacError>)
      requires Valid()
      modifies this
      ensures Valid()
      ensures r == Revocation(old(grants), old(adminCount), admin, role, account, now)
      ensures r == Ok(false) <==> (role, account) !in old(grants)
      ensures r == Err(LastAdmin) <==>
                && role == admin && old(HasRole(role, account, now))
                && forall b :: (admin, b) in old(grants) ==> b == account
      ensures r != Ok(true) ==> unchanged(this)
      ensures r == Ok(true) ==>
                && grants == old(grants) - {(role, account)}
                && members == old(members)[role := Without(old(RoleMembers(role)), account)]
                && adminCount == old(adminCount) - if role == admin then 1 else 0
    {
      hide RolesOk, Without;
      if (admin, account) in grants {
        CountAboveOneIff(grants, members, adminCount, admin, account);
      }
      var isActive := HasRole(role, account, now);
      var expired := (role, account) in grants && grants[(role, account)].Some? && now >= grants[(role, account)].value;
      if !isActive && !expired {
        return Ok(false);
      }
      RevokeKeeps(grants, members, adminCount, admin, role, account);
      if role == admin && isActive {
        if adminCount <= 1 {
          return Err(LastAdmin);
        }
        adminCount := adminCount - 1;
      } else if role == admin && expired {
        adminCount := SatSub(adminCount, 1);
      }
      grants := grants - {(role, account)};
      var updated := Rebuild(role, account);
      members := members[role := updated];
      r := Ok(true);
    }
  }

  /** That table reached through the shared operations themselves. Contracts that never grant an expiring admin
      never get there. */
  method StrandTable<R(==,!new)>(admin: R, a: Address, b: Address) returns (table: RoleTable<R>)
    requires a != b
    ensures fresh(table) && table.Valid() && table.admin == admin && table.adminCount == 1
    ensures !SomeActive(table.grants, admin, 5)
  {
    table := new RoleTable<R>(admin);
    var _ := table.Grant(admin, a, 0);
    var _ := table.GrantWithExpiration(admin, b, Some(5), 0);
    var removed := table.Revoke(admin, a, 5);
    assert removed == Ok(true);
  }
}
