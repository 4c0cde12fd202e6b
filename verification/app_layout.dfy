/** The authenticated shell around every page: it follows the auth
    session, fetches the signed-in user's profile, and decides between a
    spinner, a redirect and the layout. The listener callbacks are modelled
    as events applied one after another. */
module AppLayout {
  import opened Wrappers

  /** The columns of a profile the shell looks at. `onboardingCompleted`
      is optional in the profile type. */
  datatype LayoutProfile = LayoutProfile(id: string, onboardingCompleted: Option<bool>)

  /** A session is identified by the id of its user. */
  datatype Shell = Shell(user: Option<string>, session: Option<string>, profile: Option<LayoutProfile>, loading: bool)

  const Initial := Shell(None, None, None, true)

  datatype Event =
    | AuthChange(session: Option<string>)        // the `onAuthStateChange` callback
    | InitialSession(session: Option<string>)    // `getSession()` resolving
    | ProfileFetched(profile: Option<LayoutProfile>)  // the deferred profile query resolving

  function Apply(s: Shell, e: Event): (t: Shell)
    ensures e.AuthChange? ==> t.session == e.session && t.user == e.session && !t.loading
    ensures e.AuthChange? && e.session.None? ==> t.profile.None?
    ensures e.AuthChange? && e.session.Some? ==> t.profile == s.profile
    ensures e.InitialSession? ==> t.session == e.session && t.user == e.session && t.profile == s.profile
    ensures e.InitialSession? ==> (t.loading <==> s.loading && e.session.Some?)
    ensures e.ProfileFetched? ==> t.user == s.user && t.session == s.session && t.loading == s.loading
    ensures e.ProfileFetched? ==> t.profile == if e.profile.Some? then e.profile else s.profile
  {
    match e
    case AuthChange(session) =>
      Shell(session, session, if session.Some? then s.profile else None, false)
    case InitialSession(session) =>
      Shell(session, session, s.profile, if session.None? then false else s.loading)
    case ProfileFetched(p) =>
      if p.Some? then s.(profile := p) else s
  }

  function Run(s: Shell, es: seq<Event>): Shell
    decreases |es|
  {
    if |es| == 0 then s else Run(Apply(s, es[0]), es[1..])
  }

  datatype View = Spinner | Redirect(path: string) | Layout(sidebarProfile: Option<LayoutProfile>)

  /** What the shell renders. */
  function Render(s: Shell): (v: View)
    ensures v == Spinner <==> s.loading
    ensures v == Redirect("/auth") <==> !s.loading && (s.user.None? || s.session.None?)
    ensures v == Redirect("/onboarding") <==>
              !s.loading && s.user.Some? && s.session.Some?
              && s.profile.Some? && s.profile.value.onboardingCompleted != Some(true)
    ensures v.Layout? ==> v.sidebarProfile == s.profile
    ensures v.Layout? <==> !s.loading && s.user.Some? && s.session.Some?
                           && (s.profile.None? || s.profile.value.onboardingCompleted == Some(true))
  {
    if s.loading then Spinner
    else if s.user.None? || s.session.None? then Redirect("/auth")
    else if s.profile.Some? && s.profile.value.onboardingCompleted != Some(true) then Redirect("/onboarding")
    else Layout(s.profile)
  }

  /** Once loading has ended it never starts again. */
  lemma {:induction false} LoadingNeverResumes(s: Shell, es: seq<Event>)
    requires !s.loading
    ensures !Run(s, es).loading
    decreases |es|
  {
    if |es| > 0 {
      LoadingNeverResumes(Apply(s, es[0]), es[1..]);
    }
  }

  /** Before any auth-change event, loading ends only by an initial
      session check that finds no session. */
  lemma {:induction false} SpinnerUntilAnswer(s: Shell, es: seq<Event>)
    requires s.loading
    requires forall i :: 0 <= i < |es| ==> !es[i].AuthChange? && es[i] != InitialSession(None)
    ensures Render(Run(s, es)) == Spinner
    decreases |es|
  {
    if |es| > 0 {
      assert !es[0].AuthChange? && es[0] != InitialSession(None);
      SpinnerUntilAnswer(Apply(s, es[0]), es[1..]);
    }
  }

  /** Signing out sends to the sign-in page, and a profile query still
      in flight does not change that. */
  lemma {:induction false} SignedOutStaysOut(s: Shell, es: seq<Event>)
    requires forall i :: 0 <= i < |es| ==> es[i].ProfileFetched?
    ensures Render(Run(Apply(s, AuthChange(None)), es)) == Redirect("/auth")
  {
    var t := Apply(s, AuthChange(None));
    StaleFetchKeepsSignedOut(t, es);
  }

  lemma {:induction false} StaleFetchKeepsSignedOut(t: Shell, es: seq<Event>)
    requires !t.loading && t.user.None?
    requires forall i :: 0 <= i < |es| ==> es[i].ProfileFetched?
    ensures !Run(t, es).loading && Run(t, es).user.None?
    decreases |es|
  {
    if |es| > 0 {
      assert es[0].ProfileFetched?;
      StaleFetchKeepsSignedOut(Apply(t, es[0]), es[1..]);
    }
  }

  /** Signing in before the profile arrives shows the layout with no
      profile; a profile that has not finished onboarding then redirects. */
  lemma SignInThenProfile(s: Shell, id: string, completed: Option<bool>)
    ensures Render(Apply(s, AuthChange(Some(id)))).Layout? <==>
              s.profile.None? || s.profile.value.onboardingCompleted == Some(true)
    ensures Render(Run(Initial, [AuthChange(Some(id))])) == Layout(None)
    ensures Render(Run(Initial, [AuthChange(Some(id)), ProfileFetched(Some(LayoutProfile(id, completed)))]))
              == if completed == Some(true) then Layout(Some(LayoutProfile(id, completed))) else Redirect("/onboarding")
  {
    var a := Apply(Initial, AuthChange(Some(id)));
    assert Run(Initial, [AuthChange(Some(id))]) == Run(a, []);
    var es := [AuthChange(Some(id)), ProfileFetched(Some(LayoutProfile(id, completed)))];
    assert es[1..] == [ProfileFetched(Some(LayoutProfile(id, completed)))];
    var b := Apply(a, ProfileFetched(Some(LayoutProfile(id, completed))));
    assert Run(Initial, es) == Run(a, es[1..]);
    assert Run(a, es[1..]) == Run(b, []);
  }
}
