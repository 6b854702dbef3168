/**
 * The signed-in identity and the login / sign-up dialog of the volunteer hub:
 * how the session is derived from the identity the authentication service
 * reports, the two dialog modes, the dialog's form, and which service call a
 * submission of that form issues.
 */
module Session {

  /** The identity the authentication service passes to the auth-state listener. */
  datatype AuthUser = AuthUser(uid: string, email: string)

  /** The locally held session (`currentUser`). */
  datatype User = User(uid: string, email: string, name: string)

  /**
   * `email.split('@')[0]`: the part of the address before its first '@', or
   * the whole address when it has none. The three clauses determine the result
   * (see LocalPartUnique).
   */
  function LocalPart(email: string): (r: string)
    ensures r <= email
    ensures '@' !in r
    ensures |r| < |email| ==> email[|r|] == '@'
  {
    if email == [] || email[0] == '@' then []
    else [email[0]] + LocalPart(email[1..])
  }

  /** Any prefix free of '@' that ends at the end or just before an '@' is LocalPart's result. */
  lemma LocalPartUnique(email: string, r: string)
    requires r <= email && '@' !in r
    requires |r| < |email| ==> email[|r|] == '@'
    ensures r == LocalPart(email)
  {
  }

  /** The display name of "local@domain" is "local" when the local part has no '@'. */
  lemma LocalPartOfAddress(local: string, domain: string)
    requires '@' !in local
    ensures LocalPart(local + "@" + domain) == local
  {
    var email := local + "@" + domain;
    assert local <= email;
    assert email[|local|] == '@';
    LocalPartUnique(email, local);
  }

  /** The session the auth-state listener builds from a reported identity. */
  function SessionOf(u: AuthUser): User
  {
    User(u.uid, u.email, LocalPart(u.email))
  }

  /** The session name of a signed-in "local@domain" identity is "local". */
  lemma SessionNameOfAddress(uid: string, local: string, domain: string)
    requires '@' !in local
    ensures SessionOf(AuthUser(uid, local + "@" + domain)).uid == uid
    ensures SessionOf(AuthUser(uid, local + "@" + domain)).name == local
  {
    LocalPartOfAddress(local, domain);
  }

  /** `authMode`: which of the two forms the dialog shows. */
  datatype AuthMode = Login | Signup

  /** The dialog's "Sign up" / "Login" switch. */
  function Toggled(m: AuthMode): (r: AuthMode)
    ensures r != m
  {
    if m == Login then Signup else Login
  }

  /** Switching twice returns to the mode one started from. */
  lemma ToggledInvolution(m: AuthMode)
    ensures Toggled(Toggled(m)) == m
  {
  }

  /** `authForm`: the fields bound to the dialog's inputs. */
  datatype AuthForm = AuthForm(email: string, password: string, name: string)

  /** The initial form, and the one a successful submission resets to. */
  const EmptyAuthForm := AuthForm("", "", "")

  /** Which form field an input edits. */
  datatype AuthField = NameField | EmailField | PasswordField

  /** The form after one input's change handler has run. */
  function EditedForm(f: AuthForm, field: AuthField, value: string): (r: AuthForm)
    ensures field == NameField ==> r.name == value && r.email == f.email && r.password == f.password
    ensures field == EmailField ==> r.email == value && r.name == f.name && r.password == f.password
    ensures field == PasswordField ==> r.password == value && r.name == f.name && r.email == f.email
  {
    match field
    case NameField => f.(name := value)
    case EmailField => f.(email := value)
    case PasswordField => f.(password := value)
  }

  /** The authentication service call a submission of the dialog issues. */
  datatype AuthRequest =
    | CreateUserWithEmailAndPassword(email: string, password: string)
    | SignInWithEmailAndPassword(email: string, password: string)

  /** Sign-up mode creates an account, login mode signs in; both send email and password only. */
  function AuthRequestFor(mode: AuthMode, form: AuthForm): (r: AuthRequest)
    ensures r.CreateUserWithEmailAndPassword? <==> mode == Signup
    ensures r.email == form.email && r.password == form.password
  {
    if mode == Signup then CreateUserWithEmailAndPassword(form.email, form.password)
    else SignInWithEmailAndPassword(form.email, form.password)
  }

  /** The name typed into the sign-up form is never sent: the request ignores it. */
  lemma AuthRequestIgnoresName(mode: AuthMode, form: AuthForm, name: string)
    ensures AuthRequestFor(mode, form.(name := name)) == AuthRequestFor(mode, form)
  {
  }
}
