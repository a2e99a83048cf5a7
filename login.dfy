/** The admin login page (`src/pages/admin/Login.tsx`): the check on mount
    that sends an existing admin session to the dashboard, and the login
    handler that signs in, asks whether the user has the `admin` role, and
    either navigates, signs the user out again, or reports an error. The
    answers of the authentication service and of the `has_role` procedure
    are inputs. */
module Login {
  import opened Common

  /** What `signInWithPassword` answers: an error with its message, or the
      signed-in user's id (`None` when the answer carries no user). */
  datatype SignInResult = SignInError(message: string) | SignedIn(user: Option<string>)

  /** What `has_role` answers: an error with its message, or the boolean. */
  datatype RoleResult = RoleError(message: string) | RoleAnswer(hasAdmin: bool)

  datatype Toast = ErrorToast(text: string) | SuccessToast(text: string)

  /** A call `has_role({ _user_id, _role })`. */
  datatype RoleQuery = RoleQuery(userId: string, role: string)

  /** `error.message || 'Login failed'` */
  function ErrorText(message: string): (text: string)
    ensures text != ""
    ensures message != "" ==> text == message
  {
    if message == "" then "Login failed" else message
  }

  const UnauthorizedText := "Unauthorized: You do not have admin access"
  const WelcomeText := "Welcome back, Admin!"

  /** Where `handleLogin` ends up, as a value: the role query it makes (if
      any), whether it signs out, whether it navigates, and its toast. */
  datatype LoginEnd = LoginEnd(query: Option<RoleQuery>, signOut: bool, navigate: bool, toast: Option<Toast>)

  function LoginDecision(signIn: SignInResult, role: RoleResult): LoginEnd {
    match signIn
    case SignInError(m) => LoginEnd(None, false, false, Some(ErrorToast(ErrorText(m))))
    case SignedIn(user) =>
      if user.None? then LoginEnd(None, false, false, None)
      else
        var q := Some(RoleQuery(user.value, "admin"));
        match role
        case RoleError(m) => LoginEnd(q, false, false, Some(ErrorToast(ErrorText(m))))
        case RoleAnswer(hasAdmin) =>
          if hasAdmin then LoginEnd(q, false, true, Some(SuccessToast(WelcomeText)))
          else LoginEnd(q, true, false, Some(ErrorToast(UnauthorizedText)))
  }

  /** The login navigates to the dashboard exactly when sign-in succeeded
      with a user and the role check answered true. */
  lemma NavigatesOnlyForAdmins(signIn: SignInResult, role: RoleResult)
    ensures LoginDecision(signIn, role).navigate <==>
      signIn.SignedIn? && signIn.user.Some? && role == RoleAnswer(true)
  {
  }

  /** A sign-in error ends the login with its message: no role check, no
      sign-out, no navigation. */
  lemma SignInErrorStops(message: string, role: RoleResult)
    ensures LoginDecision(SignInError(message), role) ==
      LoginEnd(None, false, false, Some(ErrorToast(ErrorText(message))))
  {
  }

  /** The user is signed out exactly when the role check answered false. */
  lemma SignsOutOnlyNonAdmins(signIn: SignInResult, role: RoleResult)
    ensures LoginDecision(signIn, role).signOut <==>
      signIn.SignedIn? && signIn.user.Some? && role == RoleAnswer(false)
  {
  }

  /** A role-check error is reported but leaves the session open. */
  lemma RoleErrorKeepsSession(user: string, message: string)
    ensures var e := LoginDecision(SignedIn(Some(user)), RoleError(message));
      !e.signOut && !e.navigate && e.toast == Some(ErrorToast(ErrorText(message)))
  {
  }

  /** The role check, when made, asks for `admin` for the signed-in user. */
  lemma RoleQueryIsOwnAdmin(signIn: SignInResult, role: RoleResult)
    ensures LoginDecision(signIn, role).query.Some? <==> signIn.SignedIn? && signIn.user.Some?
    ensures LoginDecision(signIn, role).query.Some? ==>
      LoginDecision(signIn, role).query == Some(RoleQuery(signIn.user.value, "admin"))
  {
  }

  /** `checkAdminAccess`: with a session, the role check decides; its error
      is ignored, since the absent answer is falsy. */
  function MountNavigates(session: Option<string>, role: RoleResult): (go: bool)
    ensures go <==> session.Some? && role == RoleAnswer(true)
  {
    session.Some? && role.RoleAnswer? && role.hasAdmin
  }

  class LoginPage {
    var loading: bool
    /** The signed-in user's id, if a session is open. */
    var session: Option<string>
    var navigated: bool
    var roleQueries: seq<RoleQuery>
    var toasts: seq<Toast>

    constructor (session: Option<string>)
      ensures this.session == session
      ensures !loading && !navigated && roleQueries == [] && toasts == []
    {
      this.session := session;
      loading := false;
      navigated := false;
      roleQueries := [];
      toasts := [];
    }

    /** The effect on mount. */
    method CheckAdminAccess(role: RoleResult)
      modifies this
      ensures navigated == (old(navigated) || MountNavigates(session, role))
      ensures roleQueries == old(roleQueries) + (if session.Some? then [RoleQuery(session.value, "admin")] else [])
      ensures session == old(session) && loading == old(loading) && toasts == old(toasts)
    {
      if session.Some? {
        roleQueries := roleQueries + [RoleQuery(session.value, "admin")];
        if role.RoleAnswer? && role.hasAdmin {
          navigated := true;
        }
      }
    }

    /** `handleLogin`, with the answers of the two backend calls as inputs.
        Sign-in opens the session of the returned user; `finally` clears
        `loading` on every path. */
    method HandleLogin(signIn: SignInResult, role: RoleResult)
      modifies this
      ensures var e := LoginDecision(signIn, role);
        && roleQueries == old(roleQueries) + (if e.query.Some? then [e.query.value] else [])
        && navigated == (old(navigated) || e.navigate)
        && toasts == old(toasts) + (if e.toast.Some? then [e.toast.value] else [])
        && session == (if signIn.SignInError? then old(session) else if e.signOut then None else signIn.user)
      ensures !loading
    {
      loading := true;
      if signIn.SignInError? {
        toasts := toasts + [ErrorToast(ErrorText(signIn.message))];
        loading := false;
        return;
      }
      session := signIn.user;
      if signIn.user.Some? {
        var userId := signIn.user.value;
        roleQueries := roleQueries + [RoleQuery(userId, "admin")];
        if role.RoleError? {
          toasts := toasts + [ErrorToast(ErrorText(role.message))];
        } else if !role.hasAdmin {
          session := None;
          toasts := toasts + [ErrorToast(UnauthorizedText)];
        } else {
          toasts := toasts + [SuccessToast(WelcomeText)];
          navigated := true;
        }
      }
      loading := false;
    }
  }

  /** A user without the role who logs in ends signed out on the login
      page, whatever session was open before. */
  method NonAdminEndsSignedOut(previous: Option<string>, user: string) returns (page: LoginPage)
    ensures page.session.None? && !page.navigated && !page.loading
    ensures page.roleQueries == [RoleQuery(user, "admin")]
  {
    page := new LoginPage(previous);
    page.HandleLogin(SignedIn(Some(user)), RoleAnswer(false));
  }
}
