/** The admin login endpoint (`LoginView.post`). Django's `authenticate`
    and the JWT issuer are outside the model: they come in as functions. */
module LoginApi {
  import opened Wrappers

  /** What the login needs to know of an authenticated user. */
  datatype User = User(id: int, username: string, isSuperuser: bool)

  /** A refresh token and the access token derived from it. */
  datatype Tokens = Tokens(refresh: string, access: string)

  const InvalidCredentials: string := "Invalid credentials"

  datatype Response =
    | Issued(refresh: string, access: string, isAdmin: bool)
    | Rejected(error: string)
  {
    function Status(): int {
      if Issued? then 200 else 401
    }
  }

  /** `LoginView.post`. A field the body leaves out reaches `authenticate`
      as `None`; `authenticate` answers with the user or with nothing. */
  function Post(
    username: Option<string>, password: Option<string>,
    authenticate: (Option<string>, Option<string>) -> Option<User>,
    issue: User -> Tokens): (r: Response)
    ensures r.Status() == 200 <==> authenticate(username, password).Some?
    ensures r.Status() == 401 ==> r == Rejected(InvalidCredentials)
    ensures r.Issued? ==>
      var user := authenticate(username, password).value;
      && r.isAdmin == user.isSuperuser
      && r.refresh == issue(user).refresh
      && r.access == issue(user).access
  {
    match authenticate(username, password)
    case None => Rejected(InvalidCredentials)
    case Some(user) =>
      var tokens := issue(user);
      Issued(tokens.refresh, tokens.access, user.isSuperuser)
  }

  /** Every failed login gets the same answer, so the response does not
      tell a wrong password from an unknown user. */
  lemma FailuresIndistinguishable(
    u1: Option<string>, p1: Option<string>, u2: Option<string>, p2: Option<string>,
    authenticate: (Option<string>, Option<string>) -> Option<User>,
    issue: User -> Tokens)
    requires authenticate(u1, p1).None? && authenticate(u2, p2).None?
    ensures Post(u1, p1, authenticate, issue) == Post(u2, p2, authenticate, issue)
  {
  }

  /** The admin flag is granted to superusers only, and to every one of them. */
  lemma AdminFlagIsSuperuser(
    username: Option<string>, password: Option<string>,
    authenticate: (Option<string>, Option<string>) -> Option<User>,
    issue: User -> Tokens)
    ensures var r := Post(username, password, authenticate, issue);
      r.Issued? && r.isAdmin <==>
        authenticate(username, password).Some? && authenticate(username, password).value.isSuperuser
  {
  }
}
