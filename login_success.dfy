/** What a successful form login records: the client's address and the user's
    login bookkeeping (security/LoginSuccessHandler.java). */
module LoginSuccess {
  import opened Base
  import Users

  /** The exception indexing the result of String.split throws when it is empty. */
  datatype IpError = ArrayIndexOutOfBounds

  /** Where the handler redirects after recording the login. */
  const DashboardPath: string := "/crm/dashboard"

  /** The comma-separated fields of a string, empty ones included: one more
      field than there are commas. */
  function Fields(s: string): (fields: seq<string>)
    ensures |fields| >= 1
  {
    if s == [] then [""]
    else if s[0] == ',' then [""] + Fields(s[1..])
    else
      var rest := Fields(s[1..]);
      [[s[0]] + rest[0]] + rest[1..]
  }

  /** Drops the empty fields at the end, as String.split with no limit does. */
  function DropTrailingEmpty(fields: seq<string>): seq<string>
  {
    if fields != [] && fields[|fields| - 1] == "" then DropTrailingEmpty(fields[..|fields| - 1])
    else fields
  }

  /** String.split(","): a string without a comma yields itself, even when
      empty; otherwise its fields without the trailing empty ones. */
  function Split(s: string): seq<string>
  {
    if ',' !in s then [s] else DropTrailingEmpty(Fields(s))
  }

  /** getClientIP: the remote address when there is no X-Forwarded-For header,
      otherwise the first field of the header's split, which throws when the
      split is empty. */
  function GetClientIp(xForwardedFor: Option<string>, remoteAddr: string): Result<string, IpError>
  {
    if xForwardedFor.None? then Ok(remoteAddr)
    else
      var parts := Split(xForwardedFor.value);
      if |parts| == 0 then Err(ArrayIndexOutOfBounds) else Ok(parts[0])
  }

  /** The text before the first comma, or the whole string when it has none. */
  function FirstField(s: string): (f: string)
    ensures ',' !in f
    ensures f <= s
    ensures |f| < |s| ==> s[|f|] == ','
  {
    if s == [] || s[0] == ',' then "" else [s[0]] + FirstField(s[1..])
  }

  predicate OnlyCommas(s: string)
  {
    forall i :: 0 <= i < |s| ==> s[i] == ','
  }

  lemma {:induction false} FieldsFirst(s: string)
    ensures Fields(s)[0] == FirstField(s)
  {
    if s != [] && s[0] != ',' {
      FieldsFirst(s[1..]);
    }
  }

  lemma {:induction false} FieldsAllEmpty(s: string)
    ensures (forall i :: 0 <= i < |Fields(s)| ==> Fields(s)[i] == "") <==> OnlyCommas(s)
  {
    if s != [] {
      FieldsAllEmpty(s[1..]);
      if s[0] == ',' {
        assert OnlyCommas(s) <==> OnlyCommas(s[1..]) by {
          assert forall i :: 1 <= i < |s| ==> s[i] == s[1..][i - 1];
        }
        var fs, rest := Fields(s), Fields(s[1..]);
        assert fs == [""] + rest;
        if forall i :: 0 <= i < |rest| ==> rest[i] == "" {
          assert forall i :: 1 <= i < |fs| ==> fs[i] == rest[i - 1];
        } else {
          var i :| 0 <= i < |rest| && rest[i] != "";
          assert fs[i + 1] == rest[i];
        }
      } else {
        assert Fields(s)[0] != "";
      }
    }
  }

  lemma {:induction false} DropTrailingEmptyKeepsFirst(fields: seq<string>)
    ensures DropTrailingEmpty(fields) == [] <==> forall i :: 0 <= i < |fields| ==> fields[i] == ""
    ensures DropTrailingEmpty(fields) != [] ==> DropTrailingEmpty(fields)[0] == fields[0]
  {
    if fields != [] && fields[|fields| - 1] == "" {
      DropTrailingEmptyKeepsFirst(fields[..|fields| - 1]);
    }
  }

  /** With no header the address is the remote one; with a header it is the
      text before its first comma (the whole header if it has none, so an
      empty header gives ""), untrimmed; a non-empty header of commas only
      makes the handler throw. */
  lemma ClientIpFromHeader(xForwardedFor: Option<string>, remoteAddr: string)
    ensures xForwardedFor.None? ==> GetClientIp(xForwardedFor, remoteAddr) == Ok(remoteAddr)
    ensures xForwardedFor.Some? ==>
              var h := xForwardedFor.value;
              if h != [] && OnlyCommas(h) then GetClientIp(xForwardedFor, remoteAddr) == Err(ArrayIndexOutOfBounds)
              else GetClientIp(xForwardedFor, remoteAddr) == Ok(FirstField(h))
  {
    if xForwardedFor.Some? {
      var h := xForwardedFor.value;
      if ',' in h {
        FieldsFirst(h);
        FieldsAllEmpty(h);
        DropTrailingEmptyKeepsFirst(Fields(h));
      } else {
        FirstFieldWithoutComma(h);
      }
    }
  }

  lemma {:induction false} FirstFieldWithoutComma(s: string)
    requires ',' !in s
    ensures FirstField(s) == s && !(s != [] && OnlyCommas(s))
  {
    if s != [] {
      assert s[0] in s;
      assert ',' !in s[1..] by { assert forall c :: c in s[1..] ==> c in s; }
      FirstFieldWithoutComma(s[1..]);
    }
  }

  /** onAuthenticationSuccess: work out the client address, record a
      successful login on the matching non-deleted user if there is one, and
      redirect to the dashboard. `users` maps each e-mail to the non-deleted
      user that has it. If the address cannot be worked out the handler
      throws before any user is touched. */
  method OnAuthenticationSuccess(users: map<string, Users.User>, email: string,
                                 xForwardedFor: Option<string>, remoteAddr: string, now: DateTime)
    returns (outcome: Result<string, IpError>)
    modifies users.Values`lastLoginAt, users.Values`lastLoginIp
    modifies users.Values`failedLoginAttempts, users.Values`accountLockedUntil
    ensures GetClientIp(xForwardedFor, remoteAddr).Err? ==>
              outcome == Err(ArrayIndexOutOfBounds) && forall u :: u in users.Values ==> unchanged(u)
    ensures GetClientIp(xForwardedFor, remoteAddr).Ok? ==> outcome == Ok(DashboardPath)
    ensures GetClientIp(xForwardedFor, remoteAddr).Ok? && email in users ==>
              var user := users[email];
              && user.lastLoginAt == Some(now)
              && user.lastLoginIp == Some(GetClientIp(xForwardedFor, remoteAddr).value)
              && user.failedLoginAttempts == 0
              && user.accountLockedUntil == None
    ensures forall u :: u in users.Values && (email !in users || u != users[email]) ==> unchanged(u)
  {
    var ip := GetClientIp(xForwardedFor, remoteAddr);
    if ip.Err? {
      return Err(ip.error);
    }
    if email in users {
      var user := users[email];
      user.RecordSuccessfulLogin(ip.value, now);
    }
    outcome := Ok(DashboardPath);
  }
}
