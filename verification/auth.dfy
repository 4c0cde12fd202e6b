/** The sign-in / sign-up screen: the sign-up form checks, the role switch
    that drops the age group, the removal of stale auth keys from browser
    storage, and what each submission leads to once the auth service has
    answered. */
module Auth {
  import opened Wrappers
  import opened Records
  import opened Text

  /** The sign-up form; the screen offers the age groups child and adult. */
  datatype SignUpForm = SignUpForm(
    email: string, password: string, confirmPassword: string,
    fullName: string, role: Role, ageGroup: Option<AgeGroup>)

  /** What `signUp` is called with: the credentials and the user metadata,
      an absent age group being sent as `null` (`None`). */
  datatype SignUpRequest = SignUpRequest(
    email: string, password: string, fullName: string, role: Role, ageGroup: Option<AgeGroup>,
    redirectPath: string)

  const MinPasswordLength: nat := 6
  const PasswordsDiffer := "Passwords don't match"
  const PasswordTooShort := "Password must be at least 6 characters long"
  const AgeGroupMissing := "Please select an age group"

  /** The form checks of `handleSignUp`, in source order; the first failing
      one is the only message shown. */
  function ValidateSignUp(f: SignUpForm): (r: Result<SignUpRequest, string>)
    ensures r == Err(PasswordsDiffer) <==> f.password != f.confirmPassword
    ensures r == Err(PasswordTooShort) <==>
              f.password == f.confirmPassword && |f.password| < MinPasswordLength
    ensures r == Err(AgeGroupMissing) <==>
              f.password == f.confirmPassword && |f.password| >= MinPasswordLength
              && f.role == User && f.ageGroup.None?
    ensures r.Ok? <==>
              f.password == f.confirmPassword && |f.password| >= MinPasswordLength
              && (f.role == Caregiver || f.ageGroup.Some?)
    ensures r.Ok? ==> r.value == SignUpRequest(f.email, f.password, f.fullName, f.role, f.ageGroup, "/dashboard")
  {
    if f.password != f.confirmPassword then Err(PasswordsDiffer)
    else if |f.password| < MinPasswordLength then Err(PasswordTooShort)
    else if f.role.User? && f.ageGroup.None? then Err(AgeGroupMissing)
    else Ok(SignUpRequest(f.email, f.password, f.fullName, f.role, f.ageGroup, "/dashboard"))
  }

  /** A caregiver's sign-up is decided by the password checks alone. */
  lemma CaregiverNeedsNoAgeGroup(f: SignUpForm)
    requires f.role == Caregiver
    ensures ValidateSignUp(f).Ok? <==> f.password == f.confirmPassword && |f.password| >= MinPasswordLength
    ensures ValidateSignUp(f) != Err(AgeGroupMissing)
  {
  }

  /** The role radio group: choosing caregiver drops the age group,
      choosing user keeps whatever was selected before. */
  function ChooseRole(f: SignUpForm, role: Role): (r: SignUpForm)
    ensures r.role == role
    ensures role == Caregiver ==> r.ageGroup.None?
    ensures role == User ==> r.ageGroup == f.ageGroup
    ensures r.(role := f.role, ageGroup := f.ageGroup) == f
  {
    f.(role := role, ageGroup := if role == Caregiver then None else f.ageGroup)
  }

  /** Passing through caregiver loses the age group: switching back to user
      leaves a form that fails the age-group check (when the passwords
      pass). */
  lemma RoleRoundTripLosesAgeGroup(f: SignUpForm)
    requires f.password == f.confirmPassword && |f.password| >= MinPasswordLength
    ensures ChooseRole(ChooseRole(f, Caregiver), User).ageGroup.None?
    ensures ValidateSignUp(ChooseRole(ChooseRole(f, Caregiver), User)) == Err(AgeGroupMissing)
  {
  }

  // ---------------------------------------------------------------------
  // cleanupAuthState

  /** Keys the cleanup removes. */
  predicate IsAuthKey(k: string)
  {
    StartsWith(k, "supabase.auth.") || Contains(k, "sb-")
  }

  /** One storage area with its auth keys removed. */
  function CleanStore(store: map<string, string>): (r: map<string, string>)
    ensures forall k :: k in r <==> k in store && !IsAuthKey(k)
    ensures forall k :: k in r ==> r[k] == store[k]
  {
    map k | k in store && !IsAuthKey(k) :: store[k]
  }

  /** `localStorage` and `sessionStorage`; the latter may be unavailable. */
  datatype Storage = Storage(local: map<string, string>, session: Option<map<string, string>>)

  function CleanupAuthState(s: Storage): (r: Storage)
    ensures r.local == CleanStore(s.local)
    ensures r.session.Some? <==> s.session.Some?
    ensures s.session.Some? ==> r.session.value == CleanStore(s.session.value)
  {
    Storage(CleanStore(s.local), if s.session.Some? then Some(CleanStore(s.session.value)) else None)
  }

  /** No auth key survives, every other key keeps its value, and a second
      cleanup changes nothing. */
  lemma CleanStoreSpec(store: map<string, string>)
    ensures forall k :: k in CleanStore(store) ==> !IsAuthKey(k)
    ensures forall k :: k in store && !IsAuthKey(k) ==> k in CleanStore(store) && CleanStore(store)[k] == store[k]
    ensures CleanStore(CleanStore(store)) == CleanStore(store)
    ensures CleanStore(store).Keys <= store.Keys
  {
  }

  lemma CleanupIdempotent(s: Storage)
    ensures CleanupAuthState(CleanupAuthState(s)) == CleanupAuthState(s)
  {
    CleanStoreSpec(s.local);
    if s.session.Some? {
      CleanStoreSpec(s.session.value);
    }
  }

  /** The session key of the auth client is removed. */
  lemma SessionKeyRemoved()
    ensures IsAuthKey("supabase.auth.token")
  {
    assert "supabase.auth.token"[..14] == "supabase.auth.";
  }

  /** A project-ref key (`sb-<ref>-auth-token`) is removed. */
  lemma ProjectKeyRemoved()
    ensures IsAuthKey("sb-abc-auth-token")
  {
    assert OccursAt("sb-abc-auth-token", "sb-", 0);
  }

  /** An application key such as `theme` is kept. */
  lemma OtherKeyKept()
    ensures !IsAuthKey("theme")
  {
    var k := "theme";
    assert |k| < |"supabase.auth."|;
    assert 's' !in k;
    forall i | 0 <= i && i + 3 <= |k| ensures !OccursAt(k, "sb-", i) {
      assert k[i..i + 3][0] == k[i];
    }
  }

  // ---------------------------------------------------------------------
  // Submissions

  /** The auth service's answer: an error with its message, a user (with or
      without a confirmed e-mail), or neither. */
  datatype AuthResponse = AuthError(message: string) | AuthUser(emailConfirmed: bool) | NoUser

  /** The screen after a submission: the message shown, where the browser
      is sent, and the storage left behind. */
  datatype AuthOutcome = AuthOutcome(error: Option<string>, redirect: Option<string>, storage: Storage)

  const VerifyEmail := "Please check your email to verify your account before signing in."

  /** `error.message || fallback`. */
  function MessageOr(message: string, fallback: string): (m: string)
    ensures m != ""  || fallback == ""
    ensures message != "" ==> m == message
    ensures message == "" ==> m == fallback
  {
    if message == "" then fallback else message
  }

  /** `handleSignUp`: a failed check shows its message and touches nothing
      else (no cleanup, no request); otherwise storage is cleaned and the
      service's answer decides the outcome. */
  function HandleSignUp(f: SignUpForm, s: Storage, response: AuthResponse): (o: AuthOutcome)
    ensures ValidateSignUp(f).Err? ==> o == AuthOutcome(Some(ValidateSignUp(f).error), None, s)
    ensures ValidateSignUp(f).Ok? ==> o.storage == CleanupAuthState(s)
    ensures o.redirect.Some? <==> ValidateSignUp(f).Ok? && response == AuthUser(true)
    ensures o.redirect.Some? ==> o.redirect.value == "/dashboard" && o.error.None?
    ensures ValidateSignUp(f).Ok? && response.AuthError? ==>
              o.error == Some(MessageOr(response.message, "Failed to create account"))
    ensures ValidateSignUp(f).Ok? && response == AuthUser(false) ==> o.error == Some(VerifyEmail)
    ensures ValidateSignUp(f).Ok? && response == NoUser ==> o.error.None? && o.redirect.None?
  {
    match ValidateSignUp(f)
    case Err(m) => AuthOutcome(Some(m), None, s)
    case Ok(_) =>
      var cleaned := CleanupAuthState(s);
      match response
      case AuthError(m) => AuthOutcome(Some(MessageOr(m, "Failed to create account")), None, cleaned)
      case AuthUser(confirmed) =>
        if confirmed then AuthOutcome(None, Some("/dashboard"), cleaned)
        else AuthOutcome(Some(VerifyEmail), None, cleaned)
      case NoUser => AuthOutcome(None, None, cleaned)
  }

  /** `handleLogin`: storage is always cleaned; a returned user goes to the
      dashboard, an error shows its message (or a fallback). */
  function HandleLogin(s: Storage, response: AuthResponse): (o: AuthOutcome)
    ensures o.storage == CleanupAuthState(s)
    ensures o.redirect.Some? <==> response.AuthUser?
    ensures o.error.Some? <==> response.AuthError?
    ensures o.error.Some? ==> o.error.value != ""
    ensures response.AuthError? ==> o.error == Some(MessageOr(response.message, "Failed to sign in"))
  {
    match response
    case AuthError(m) => AuthOutcome(Some(MessageOr(m, "Failed to sign in")), None, CleanupAuthState(s))
    case AuthUser(_) => AuthOutcome(None, Some("/dashboard"), CleanupAuthState(s))
    case NoUser => AuthOutcome(None, None, CleanupAuthState(s))
  }
}
