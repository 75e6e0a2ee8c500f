/**
 * The sign-up page (frontend/FH_book/src/pages/Signup.jsx): the ordered
 * form checks with the message of the first that fails, the sign-up call,
 * and the sign-in and redirect that follow a successful one.
 */
module Signup {
  import opened Text
  import opened Values
  import opened Storage
  import Email
  import AuthContext

  datatype Form = Form(name: string, email: string, password: string, confirmPassword: string, role: string)

  const AllRequired := "All fields are required"
  const NameTooShort := "Name must be at least 2 characters"
  const PasswordTooShort := "Password must be at least 6 characters"
  const Mismatch := "Passwords do not match"
  const BadEmail := "Please enter a valid email address"

  predicate Filled(f: Form)
  {
    f.name != "" && f.email != "" && f.password != "" && f.confirmPassword != ""
  }

  /** Every check passes (lengths are counted in UTF-16 code units). */
  predicate Acceptable(f: Form)
  {
    && Filled(f) && Utf16Length(f.name) >= 2 && Utf16Length(f.password) >= 6
    && f.password == f.confirmPassword && Email.Valid(f.email)
  }

  /**
   * `validateForm`: `None` when it returns true, otherwise the message of
   * the first failing check, in the order: all fields filled, name length,
   * password length, confirmation, e-mail pattern.
   */
  function ValidateForm(f: Form): (r: Option<string>)
    ensures r.None? <==> Acceptable(f)
    ensures r == Some(AllRequired) <==> !Filled(f)
    ensures r == Some(NameTooShort) <==> Filled(f) && Utf16Length(f.name) < 2
    ensures r == Some(PasswordTooShort) <==> Filled(f) && Utf16Length(f.name) >= 2 && Utf16Length(f.password) < 6
    ensures r == Some(Mismatch) <==>
      Filled(f) && Utf16Length(f.name) >= 2 && Utf16Length(f.password) >= 6 && f.password != f.confirmPassword
    ensures r == Some(BadEmail) <==>
      (Filled(f) && Utf16Length(f.name) >= 2 && Utf16Length(f.password) >= 6 && f.password == f.confirmPassword
       && !Email.Valid(f.email))
  {
    if !Filled(f) then Some(AllRequired)
    else if Utf16Length(f.name) < 2 then Some(NameTooShort)
    else if Utf16Length(f.password) < 6 then Some(PasswordTooShort)
    else if f.password != f.confirmPassword then Some(Mismatch)
    else if !Email.Valid(f.email) then Some(BadEmail)
    else None
  }

  /** Where a signed-in user is sent: the seller dashboard for role "seller", the buyer dashboard otherwise. */
  function Dashboard(role: string): (path: string)
    ensures path == "/seller/dashboard" <==> role == "seller"
    ensures path == "/seller/dashboard" || path == "/buyer/dashboard"
  {
    if role == "seller" then "/seller/dashboard" else "/buyer/dashboard"
  }

  /**
   * The sign-up call's outcome: the user returned (`None` for a falsy
   * reply), or the message of the error thrown (possibly empty).
   */
  datatype Reply = Returned(user: Option<User>) | Threw(message: string)

  datatype Outcome = Invalid(message: string) | Failed(message: string) | SignedUp(user: User, redirect: string)

  const NoSignupData: string := "No user data returned from signup"
  const SignupFallback: string := "Signup failed. Please try again."

  /**
   * The message a sign-up or login page shows for a failed call: a reply
   * without a user throws `noData`, and the catch shows `err.message ||
   * fallback`.
   */
  function FailureMessage(reply: Reply, noData: string, fallback: string): (m: string)
    requires !(reply.Returned? && reply.user.Some?)
    requires noData != [] && fallback != []
    ensures m != []
    ensures reply.Returned? ==> m == noData
    ensures reply.Threw? && reply.message != [] ==> m == reply.message
    ensures reply.Threw? && reply.message == [] ==> m == fallback
  {
    match reply
    case Returned(_) => noData
    case Threw(msg) => if msg != [] then msg else fallback
  }

  /**
   * `handleSignup`. An invalid form shows its message and makes no call.
   * Otherwise the call is made with the form's name, e-mail, password and
   * role; a user returned is stored and signed in and the page redirects by
   * the role chosen on the form; any other reply shows its message and
   * leaves the stored user alone.
   */
  method HandleSignup(b: Browser, f: Form, reply: Reply) returns (o: Outcome)
    modifies b`userEntry, b`user
    ensures ValidateForm(f).Some? ==> o == Invalid(ValidateForm(f).value)
    ensures ValidateForm(f).None? && reply.Returned? && reply.user.Some? ==>
      && o == SignedUp(reply.user.value, Dashboard(f.role))
      && b.user == reply.user && b.userEntry == Some(Record(reply.user.value))
    ensures ValidateForm(f).None? && !(reply.Returned? && reply.user.Some?) ==> o == Failed(FailureMessage(reply, NoSignupData, SignupFallback))
    ensures !o.SignedUp? ==> b.user == old(b.user) && b.userEntry == old(b.userEntry)
  {
    var check := ValidateForm(f);
    if check.Some? {
      return Invalid(check.value);
    }
    if reply.Returned? && reply.user.Some? {
      AuthContext.Login(b, reply.user);
      return SignedUp(reply.user.value, Dashboard(f.role));
    }
    o := Failed(FailureMessage(reply, NoSignupData, SignupFallback));
  }

  // ---------------------------------------------------------------------
  // Facts

  /** A form with an empty field is refused whatever else it holds. */
  lemma EmptyFieldRefused(f: Form)
    requires f.name == "" || f.email == "" || f.password == "" || f.confirmPassword == ""
    ensures ValidateForm(f) == Some(AllRequired)
  {
  }

  /** The checks are ordered: a short name is reported even when the passwords also differ and the e-mail is bad. */
  lemma FirstFailureWins()
    ensures ValidateForm(Form("A", "x", "secret1", "secret2", "buyer")) == Some(NameTooShort)
  {
    assert Utf16Length("A") == 1;
  }

  /** A name of one character beyond U+FFFF is two code units long and passes the length check. */
  lemma AstralNameLength()
    ensures Utf16Length("\U{1F600}") == 2
  {
  }

  /** A form whose every field passes is accepted, with the e-mail test being the pattern's. */
  lemma AcceptedIffAllChecks(f: Form)
    ensures ValidateForm(f).None? <==>
      (Filled(f) && Utf16Length(f.name) >= 2 && Utf16Length(f.password) >= 6
       && f.password == f.confirmPassword && Email.MatchesPattern(f.email))
  {
    Email.ValidIffPattern(f.email);
  }
}
