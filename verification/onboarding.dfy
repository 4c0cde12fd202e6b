/** The onboarding wizard: four steps walked with Next/Previous, the
    gating of those buttons, the progress dots, the avatar initials, and
    the profile update sent when the wizard completes. */
module Onboarding {
  import opened Wrappers
  import opened Records
  import opened Text

  datatype Step = RoleStep | PreferencesStep | ProfileStep | CompleteStep

  /** The steps in wizard order, as the progress indicator lists them. */
  const Steps: seq<Step> := [RoleStep, PreferencesStep, ProfileStep, CompleteStep]

  /** Position of a step in `Steps` (`indexOf`). */
  function StepIndex(s: Step): (i: nat)
    ensures i < |Steps| && Steps[i] == s
  {
    match s
    case RoleStep => 0
    case PreferencesStep => 1
    case ProfileStep => 2
    case CompleteStep => 3
  }

  /** `nextStep`: one step forward; the last step has no successor case and
      stays put. */
  function Next(s: Step): (r: Step)
    ensures s != CompleteStep ==> StepIndex(r) == StepIndex(s) + 1
    ensures s == CompleteStep ==> r == s
  {
    match s
    case RoleStep => PreferencesStep
    case PreferencesStep => ProfileStep
    case ProfileStep => CompleteStep
    case CompleteStep => CompleteStep
  }

  /** `prevStep`: one step back; the first step stays put. */
  function Prev(s: Step): (r: Step)
    ensures s != RoleStep ==> StepIndex(r) + 1 == StepIndex(s)
    ensures s == RoleStep ==> r == s
  {
    match s
    case RoleStep => RoleStep
    case PreferencesStep => RoleStep
    case ProfileStep => PreferencesStep
    case CompleteStep => ProfileStep
  }

  lemma PrevAfterNext(s: Step)
    requires s != CompleteStep
    ensures Prev(Next(s)) == s
  {
  }

  lemma NextAfterPrev(s: Step)
    requires s != RoleStep
    ensures Next(Prev(s)) == s
  {
  }

  /** The wizard's component state; an unset age group (`''`) is `None`. */
  datatype Wizard = Wizard(
    step: Step, role: Role, simplifiedUi: bool, highContrast: bool,
    fullName: string, ageGroup: Option<AgeGroup>, loading: bool)

  const Initial := Wizard(RoleStep, User, false, false, "", None, false)

  /** The Next button is disabled on the profile step while the name or the
      age group is empty. */
  predicate NextEnabled(w: Wizard)
  {
    !(w.step == ProfileStep && (w.fullName == "" || w.ageGroup.None?))
  }

  /** The Previous button is disabled on the first step only. */
  predicate PrevEnabled(w: Wizard)
  {
    w.step != RoleStep
  }

  /** What the user can do; each input exists only on its own step. */
  datatype Event =
    | PressNext
    | PressPrevious
    | ChooseRole(role: Role)
    | SetSimplifiedUi(on: bool)
    | SetHighContrast(on: bool)
    | EditName(name: string)
    | ChooseAgeGroup(group: AgeGroup)

  /** One user action. On the complete step the Next button is replaced by
      "Get Started", whose save is `CompleteOnboarding`. */
  function Apply(w: Wizard, e: Event): (r: Wizard)
    ensures r.loading == w.loading
    ensures r.step != w.step ==>
      (e == PressNext && NextEnabled(w) && w.step != CompleteStep && r.step == Next(w.step))
      || (e == PressPrevious && PrevEnabled(w) && r.step == Prev(w.step))
    ensures r.fullName != w.fullName || r.ageGroup != w.ageGroup ==> w.step == ProfileStep && r.step == w.step
    ensures r.role != w.role ==> w.step == RoleStep
    ensures e == PressNext && NextEnabled(w) && w.step != CompleteStep ==> r.step == Next(w.step)
    ensures e == PressPrevious && PrevEnabled(w) ==> r.step == Prev(w.step)
    ensures e.ChooseRole? && w.step == RoleStep ==> r.role == e.role
    ensures e.SetSimplifiedUi? && w.step == PreferencesStep ==> r.simplifiedUi == e.on
    ensures e.SetHighContrast? && w.step == PreferencesStep ==> r.highContrast == e.on
    ensures e.EditName? && w.step == ProfileStep ==> r.fullName == e.name
    ensures e.ChooseAgeGroup? && w.step == ProfileStep ==> r.ageGroup == Some(e.group)
  {
    match e
    case PressNext =>
      if NextEnabled(w) && w.step != CompleteStep then w.(step := Next(w.step)) else w
    case PressPrevious =>
      if PrevEnabled(w) then w.(step := Prev(w.step)) else w
    case ChooseRole(role) =>
      if w.step == RoleStep then w.(role := role) else w
    case SetSimplifiedUi(on) =>
      if w.step == PreferencesStep then w.(simplifiedUi := on) else w
    case SetHighContrast(on) =>
      if w.step == PreferencesStep then w.(highContrast := on) else w
    case EditName(name) =>
      if w.step == ProfileStep then w.(fullName := name) else w
    case ChooseAgeGroup(group) =>
      if w.step == ProfileStep then w.(ageGroup := Some(group)) else w
  }

  function Run(w: Wizard, es: seq<Event>): Wizard
    decreases |es|
  {
    if |es| == 0 then w else Run(Apply(w, es[0]), es[1..])
  }

  /** Past the profile step, a name and an age group have been given. */
  ghost predicate ProfileFilled(w: Wizard)
  {
    w.step == CompleteStep ==> w.fullName != "" && w.ageGroup.Some?
  }

  lemma ApplyKeepsProfileFilled(w: Wizard, e: Event)
    requires ProfileFilled(w)
    ensures ProfileFilled(Apply(w, e))
  {
  }

  /** Whatever the user does from the first screen, the wizard reaches the
      complete step only with a non-empty name and a chosen age group. */
  lemma {:induction false} CompleteNeedsProfile(w: Wizard, es: seq<Event>)
    requires ProfileFilled(w)
    ensures ProfileFilled(Run(w, es))
    decreases |es|
  {
    if |es| > 0 {
      ApplyKeepsProfileFilled(w, es[0]);
      CompleteNeedsProfile(Apply(w, es[0]), es[1..]);
    }
  }

  lemma FromStartCompleteNeedsProfile(es: seq<Event>)
    ensures Run(Initial, es).step == CompleteStep ==>
              Run(Initial, es).fullName != "" && Run(Initial, es).ageGroup.Some?
  {
    CompleteNeedsProfile(Initial, es);
  }

  /** Three presses of Next from the first screen reach the complete step
      exactly when a name and an age group were given on the profile step. */
  lemma StraightThrough(name: string, group: AgeGroup)
    ensures Run(Initial, [PressNext, PressNext, EditName(name), ChooseAgeGroup(group), PressNext]).step
            == (if name == "" then ProfileStep else CompleteStep)
  {
    var es := [PressNext, PressNext, EditName(name), ChooseAgeGroup(group), PressNext];
    var w1 := Apply(Initial, PressNext);
    var w2 := Apply(w1, PressNext);
    var w3 := Apply(w2, EditName(name));
    var w4 := Apply(w3, ChooseAgeGroup(group));
    var w5 := Apply(w4, PressNext);
    assert w2.step == ProfileStep && w4.fullName == name && w4.ageGroup == Some(group);
    assert Run(w5, []) == w5;
    assert Run(w4, [PressNext]) == w5;
    assert Run(w3, es[3..]) == w5;
    assert Run(w2, es[2..]) == w5;
    assert Run(w1, es[1..]) == w5;
  }

  // ---------------------------------------------------------------------
  // Progress dots

  datatype DotStatus = Done | Current | Pending

  /** The dot of `dot` while the wizard is on `current`. */
  function Dot(dot: Step, current: Step): DotStatus
  {
    if current == dot then Current
    else if StepIndex(dot) < StepIndex(current) then Done
    else Pending
  }

  /** The four dots, in wizard order. */
  function Dots(current: Step): (ds: seq<DotStatus>)
    ensures |ds| == |Steps|
    ensures forall i :: 0 <= i < |ds| ==> ds[i] == Dot(Steps[i], current)
  {
    seq(|Steps|, i requires 0 <= i < |Steps| => Dot(Steps[i], current))
  }

  /** The dots read "done" up to the current step, one "current", and
      "pending" after it. */
  lemma DotsSpec(current: Step)
    ensures forall i :: 0 <= i < |Steps| ==>
      (Dots(current)[i] == Current <==> i == StepIndex(current))
      && (Dots(current)[i] == Done <==> i < StepIndex(current))
      && (Dots(current)[i] == Pending <==> i > StepIndex(current))
  {
    forall i | 0 <= i < |Steps|
      ensures (Dots(current)[i] == Current <==> i == StepIndex(current))
      ensures (Dots(current)[i] == Done <==> i < StepIndex(current))
    {
      assert StepIndex(Steps[i]) == i;
    }
  }

  /** Next turns the current dot into a done one and the following dot
      into the current one. */
  lemma NextAdvancesDots(s: Step)
    requires s != CompleteStep
    ensures Dots(Next(s))[StepIndex(s)] == Done
    ensures Dots(Next(s))[StepIndex(s) + 1] == Current
    ensures forall i :: 0 <= i < |Steps| && i != StepIndex(s) && i != StepIndex(s) + 1 ==>
              Dots(Next(s))[i] == Dots(s)[i]
  {
    DotsSpec(s);
    DotsSpec(Next(s));
  }

  // ---------------------------------------------------------------------
  // Avatar and saved profile

  /** The avatar fallback: the word initials of the name, or `?` while the
      name is empty. */
  function AvatarText(fullName: string): (r: string)
    ensures fullName == "" ==> r == "?"
    ensures fullName != "" ==> r == ToUpper(WordStarts(fullName, true))
  {
    if fullName == "" then "?"
    else
      InitialsAreWordStarts(fullName);
      Initials(fullName)
  }

  /** A name of a single space is not empty, so it gets no `?`; its two
      empty words have no first letters and the avatar is blank. */
  lemma BlankNameBlankAvatar()
    ensures AvatarText(" ") == ""
  {
    InitialsAreWordStarts(" ");
    assert " "[1..] == "";
  }

  /** The `update` sent to `profiles`. */
  datatype ProfileUpdate = ProfileUpdate(
    role: Role, fullName: string, ageGroup: Option<AgeGroup>, preferences: Preferences, onboardingCompleted: bool)

  /** The `activity_logs` row written after a successful save. */
  datatype ActivityEntry = ActivityEntry(userId: string, activityType: string, description: string)

  datatype Completion = Completion(update: ProfileUpdate, activity: ActivityEntry, destination: string)

  function RoleName(r: Role): string
  {
    match r
    case User => "user"
    case Caregiver => "caregiver"
  }

  function ProfilePayload(w: Wizard): (p: ProfileUpdate)
    ensures p.preferences.theme == Light && p.preferences.notifications && p.onboardingCompleted
    ensures p.role == w.role && p.fullName == w.fullName && p.ageGroup == w.ageGroup
    ensures p.preferences.simplifiedUi == w.simplifiedUi && p.preferences.highContrast == w.highContrast
  {
    ProfileUpdate(w.role, w.fullName, w.ageGroup, Preferences(Light, true, w.simplifiedUi, w.highContrast), true)
  }

  /** `handleCompleteOnboarding`: without a signed-in user it fails with
      "No user found"; a failed update fails with the store's message;
      otherwise the profile is saved, the completion is logged and the
      app moves to the dashboard. `saveError` is the update's outcome. */
  function CompleteOnboarding(w: Wizard, user: Option<string>, saveError: Option<string>)
    : (r: Result<Completion, string>)
    ensures user.None? ==> r == Err("No user found")
    ensures user.Some? && saveError.Some? ==> r == Err(saveError.value)
    ensures r.Ok? <==> user.Some? && saveError.None?
    ensures r.Ok? ==>
      && r.value.update == ProfilePayload(w)
      && r.value.activity.userId == user.value
      && r.value.activity.activityType == "onboarding"
      && r.value.activity.description == "Completed onboarding as " + RoleName(w.role)
      && r.value.destination == "/dashboard"
  {
    if user.None? then Err("No user found")
    else if saveError.Some? then Err(saveError.value)
    else
      Ok(Completion(
        ProfilePayload(w),
        ActivityEntry(user.value, "onboarding", "Completed onboarding as " + RoleName(w.role)),
        "/dashboard"))
  }
}
