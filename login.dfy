/**
 * The login page (frontend/FH_book/src/pages/Login.jsx): the checks made
 * before any call, the note shown when the account's role differs from the
 * one selected, and the redirect by the role the account actually has.
 */
module Login {
  import opened Values
  import opened Storage
  import Email
  import AuthContext
  import Signup

  datatype Credentials = Credentials(email: string, password: string, role: string)

  const MissingField := "Please enter both email and password"

  /** The login call's outcome, as for sign-up: the user returned, or the message thrown. */
  datatype Outcome =
    | Rejected(message: string)
    | Failed(message: string)
    | LoggedIn(user: User, note: Option<string>, redirect: string)

  /** The checks made before the call: `None` when the call is made. */
  function PreCheck(c: Credentials): (r: Option<string>)
    ensures r.None? <==> c.email != "" && c.password != "" && Email.Valid(c.email)
    ensures r == Some(MissingField) <==> c.email == "" || c.password == ""
    ensures r == Some(Signup.BadEmail) <==> c.email != "" && c.password != "" && !Email.Valid(c.email)
  {
    if c.email == "" || c.password == "" then Some(MissingField)
    else if !Email.Valid(c.email) then Some(Signup.BadEmail)
    else None
  }

  /** The note shown when a role was selected and the account's role differs. */
  function RoleNote(selected: string, actual: string): (n: Option<string>)
    ensures n.Some? <==> selected != "" && actual != selected
  {
    if selected != "" && actual != selected then
      Some("Note: You're logging in as a " + actual + ". Redirecting to " + actual + " dashboard...")
    else None
  }

  const NoLoginData: string := "No user data returned"
  const LoginFallback: string := "Login failed. Please check your credentials and try again."

  /**
   * `handleLogin`. A failed pre-check shows its message and makes no call.
   * A user returned is stored and signed in whatever its role, with a note
   * when the role differs from the one selected, and the redirect follows
   * the returned role; any other reply shows its message and leaves the
   * stored user alone.
   */
  method HandleLogin(b: Browser, c: Credentials, reply: Signup.Reply) returns (o: Outcome)
    modifies b`userEntry, b`user
    ensures PreCheck(c).Some? ==> o == Rejected(PreCheck(c).value)
    ensures PreCheck(c).None? && reply.Returned? && reply.user.Some? ==>
      var u := reply.user.value;
      && o == LoggedIn(u, RoleNote(c.role, u.role), Signup.Dashboard(u.role))
      && b.user == reply.user && b.userEntry == Some(Record(u))
    ensures PreCheck(c).None? && !(reply.Returned? && reply.user.Some?) ==> o == Failed(Signup.FailureMessage(reply, NoLoginData, LoginFallback))
    ensures !o.LoggedIn? ==> b.user == old(b.user) && b.userEntry == old(b.userEntry)
  {
    var check := PreCheck(c);
    if check.Some? {
      return Rejected(check.value);
    }
    if !(reply.Returned? && reply.user.Some?) {
      return Failed(Signup.FailureMessage(reply, NoLoginData, LoginFallback));
    }
    var u := reply.user.value;
    var note := RoleNote(c.role, u.role);
    AuthContext.Login(b, reply.user);
    o := LoggedIn(u, note, Signup.Dashboard(u.role));
  }

  /**
   * The redirect ignores the selected role: a seller who logs in with
   * "buyer" selected is still sent to the seller dashboard, with a note.
   */
  lemma RedirectFollowsAccount(u: User)
    requires u.role == "seller"
    ensures Signup.Dashboard(u.role) == "/seller/dashboard"
    ensures RoleNote("buyer", u.role).Some?
  {
  }
}
