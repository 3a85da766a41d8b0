/** Resolving a login name to the credentials and authority tokens the
    security framework checks (security/CustomUserDetailsService.java). */
module UserDetailsService {
  import opened Base
  import Users

  /** UsernameNotFoundException, with its message. */
  datatype AuthError = UsernameNotFound(message: string)

  /** org.springframework.security.core.userdetails.User as built here. The
      library keeps the authorities it is given as a set, so order and
      repeats of the list passed in are not part of the details. */
  datatype UserDetails = UserDetails(
    username: string,
    password: string,
    enabled: bool,
    accountNonExpired: bool,
    credentialsNonExpired: bool,
    accountNonLocked: bool,
    authorities: set<string>)

  /** The authority a role grants: "ROLE_" followed by the role's name. */
  function RoleAuthority(role: Users.Role): (token: string)
    ensures |token| > 5 && token[..5] == "ROLE_" && token[5..] == Users.RoleName(role)
  {
    "ROLE_" + Users.RoleName(role)
  }

  /** Different roles grant different authorities. */
  lemma RoleAuthorityInjective(r1: Users.Role, r2: Users.Role)
    ensures RoleAuthority(r1) == RoleAuthority(r2) ==> r1 == r2
  {
    if RoleAuthority(r1) == RoleAuthority(r2) {
      assert RoleAuthority(r1)[5..] == Users.RoleName(r1);
      assert RoleAuthority(r2)[5..] == Users.RoleName(r2);
    }
  }

  /** The set of tokens a user holds: its role's authority and its permission codes. */
  function AuthorityTokens(role: Users.Role, permissions: set<string>): set<string>
  {
    {RoleAuthority(role)} + permissions
  }

  /** A user with role MANAGER and the single permission "reports.export" holds
      exactly the tokens ROLE_MANAGER and reports.export. */
  lemma ManagerExample()
    ensures AuthorityTokens(Users.Manager, {"reports.export"}) == {"ROLE_MANAGER", "reports.export"}
  {
    assert RoleAuthority(Users.Manager) == "ROLE_MANAGER";
  }

  /** getAuthorities: the role's authority first, then one authority per
      granted permission, in the order the permission set is walked. */
  method GetAuthorities(user: Users.User) returns (authorities: seq<string>)
    ensures |authorities| == 1 + |user.permissions|
    ensures authorities[0] == RoleAuthority(user.role)
    ensures forall i, j :: 1 <= i < j < |authorities| ==> authorities[i] != authorities[j]
    ensures forall i :: 1 <= i < |authorities| ==> authorities[i] in user.permissions
    ensures (set a | a in authorities) == AuthorityTokens(user.role, user.permissions)
  {
    var roleToken := RoleAuthority(user.role);
    var permissions := user.permissions;
    authorities := [roleToken];
    var remaining := permissions;
    ghost var done: set<string> := {};
    ghost var codes: seq<string> := [];
    while remaining != {}
      invariant done + remaining == permissions && done !! remaining
      invariant authorities == [roleToken] + codes
      invariant |codes| == |done|
      invariant forall i, j :: 0 <= i < j < |codes| ==> codes[i] != codes[j]
      invariant forall i :: 0 <= i < |codes| ==> codes[i] in done
      invariant forall p :: p in done ==> p in codes
      decreases remaining
    {
      var permission :| permission in remaining;
      authorities := authorities + [permission];
      codes := codes + [permission];
      remaining := remaining - {permission};
      done := done + {permission};
    }
    ElementsOfCons(roleToken, codes);
  }

  /** The elements of a sequence with a first element put in front. */
  lemma ElementsOfCons(first: string, rest: seq<string>)
    ensures (set a | a in [first] + rest) == {first} + (set a | a in rest)
  {
  }

  /** loadUserByUsername: look the non-deleted user up by e-mail, refuse a
      user that is not active (inactive or locked), and build the details.
      `users` maps each e-mail to the non-deleted user that has it. */
  method LoadUserByUsername(users: map<string, Users.User>, email: string, now: DateTime)
    returns (r: Result<UserDetails, AuthError>)
    ensures email !in users ==> r == Err(UsernameNotFound("User not found with email: " + email))
    ensures email in users && !users[email].IsActive(now) ==>
              r == Err(UsernameNotFound("User account is not active"))
    ensures email in users && users[email].IsActive(now) ==>
              && r.Ok?
              && r.value.username == users[email].email
              && r.value.password == users[email].password
              && r.value.enabled && r.value.accountNonExpired
              && r.value.credentialsNonExpired && r.value.accountNonLocked
              && r.value.authorities == AuthorityTokens(users[email].role, users[email].permissions)
  {
    if email !in users {
      return Err(UsernameNotFound("User not found with email: " + email));
    }
    var user := users[email];
    if !user.IsActive(now) {
      return Err(UsernameNotFound("User account is not active"));
    }
    var authorities := GetAuthorities(user);
    r := Ok(UserDetails(
      user.email,
      user.password,
      user.IsActive(now),
      true,
      true,
      !user.IsAccountLocked(now),
      set a | a in authorities));
  }
}
