/** Accounts and the roles they hold. */
module AccessControl {
  import opened Wrappers
  import opened ByteCodec
  import opened RollupErrors

  type Address = b: Bytes | |b| == 20 witness EncodeLE(0, 20)

  const ZERO_ADDRESS: Address := EncodeLE(0, 20)

  datatype Role = AdminRole | AttestorRole | OtherRole(id: U32)

  type Roles = set<(Address, Role)>

  function GrantUnchecked(roles: Roles, role: Role, account: Address): (Roles, Outcome<Error>) {
    if (account, role) in roles then (roles, Fail(AccessControlFailure(RoleRedundant)))
    else (roles + {(account, role)}, Pass)
  }

  function RevokeUnchecked(roles: Roles, role: Role, account: Address): (Roles, Outcome<Error>) {
    if (account, role) !in roles then (roles, Fail(AccessControlFailure(MissingRole)))
    else (roles - {(account, role)}, Pass)
  }

  /** A successful grant is undone by a revoke and a successful revoke by a grant. */
  lemma GrantRevokeInverse(roles: Roles, role: Role, account: Address)
    ensures GrantUnchecked(roles, role, account).1.Pass? ==>
              RevokeUnchecked(GrantUnchecked(roles, role, account).0, role, account) == (roles, Pass)
    ensures RevokeUnchecked(roles, role, account).1.Pass? ==>
              GrantUnchecked(RevokeUnchecked(roles, role, account).0, role, account) == (roles, Pass)
    ensures GrantUnchecked(roles, role, account).1.Pass? <==> RevokeUnchecked(roles, role, account).1.Fail?
  {
    if (account, role) in roles {
      assert roles - {(account, role)} + {(account, role)} == roles;
    } else {
      assert roles + {(account, role)} - {(account, role)} == roles;
    }
  }
}
