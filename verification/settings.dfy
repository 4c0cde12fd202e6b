/** The settings screen: loading the profile and its preferences, the
    preference switches (saved optimistically), the profile save (merged
    locally only after the store accepts it), the avatar initials and the
    caregiver connection code. */
module Settings {
  import opened Wrappers
  import opened Records
  import opened Text
  import opened Seqs

  /** A `profiles` row as the screen holds it; stored preferences may be
      `null`. */
  datatype Profile = Profile(
    id: string, email: string, fullName: Option<string>, avatarUrl: Option<string>,
    role: Role, preferences: Option<Preferences>)

  /** The screen's preferences before any profile is loaded. */
  const DefaultPreferences := Preferences(Light, true, false, false)

  datatype SettingsState = SettingsState(profile: Option<Profile>, preferences: Preferences)

  const InitialState := SettingsState(None, DefaultPreferences)

  /** `fetchProfile`: a returned row replaces the profile, and its
      preferences replace the current ones unless they are `null`. No row
      (or a failed read) leaves the state as it was. */
  function LoadProfile(st: SettingsState, fetched: Option<Profile>): (r: SettingsState)
    ensures fetched.None? ==> r == st
    ensures fetched.Some? ==> r.profile == fetched
    ensures fetched.Some? && fetched.value.preferences.Some? ==> r.preferences == fetched.value.preferences.value
    ensures fetched.Some? && fetched.value.preferences.None? ==> r.preferences == st.preferences
  {
    match fetched
    case None => st
    case Some(p) => SettingsState(Some(p), p.preferences.GetOr(st.preferences))
  }

  // ---------------------------------------------------------------------
  // Preference patches

  /** A `Partial<UserPreferences>`: `Some` for each key present. */
  datatype PrefsPatch = PrefsPatch(
    theme: Option<Theme>, notifications: Option<bool>, simplifiedUi: Option<bool>, highContrast: Option<bool>)

  const NoChange := PrefsPatch(None, None, None, None)

  /** `{ ...preferences, ...patch }`. */
  function MergePrefs(p: Preferences, patch: PrefsPatch): (r: Preferences)
    ensures r.theme == patch.theme.GetOr(p.theme)
    ensures r.notifications == patch.notifications.GetOr(p.notifications)
    ensures r.simplifiedUi == patch.simplifiedUi.GetOr(p.simplifiedUi)
    ensures r.highContrast == patch.highContrast.GetOr(p.highContrast)
  {
    Preferences(
      patch.theme.GetOr(p.theme), patch.notifications.GetOr(p.notifications),
      patch.simplifiedUi.GetOr(p.simplifiedUi), patch.highContrast.GetOr(p.highContrast))
  }

  /** `{ ...a, ...b }` on patches: keys of `b` win. */
  function ComposePatches(a: PrefsPatch, b: PrefsPatch): PrefsPatch
  {
    PrefsPatch(
      if b.theme.Some? then b.theme else a.theme,
      if b.notifications.Some? then b.notifications else a.notifications,
      if b.simplifiedUi.Some? then b.simplifiedUi else a.simplifiedUi,
      if b.highContrast.Some? then b.highContrast else a.highContrast)
  }

  /** Keys absent from the patch keep their value; the empty patch changes
      nothing; applying a patch twice is applying it once. */
  lemma MergeLaws(p: Preferences, a: PrefsPatch)
    ensures a.theme.None? ==> MergePrefs(p, a).theme == p.theme
    ensures a.notifications.None? ==> MergePrefs(p, a).notifications == p.notifications
    ensures a.simplifiedUi.None? ==> MergePrefs(p, a).simplifiedUi == p.simplifiedUi
    ensures a.highContrast.None? ==> MergePrefs(p, a).highContrast == p.highContrast
    ensures MergePrefs(p, NoChange) == p
    ensures MergePrefs(MergePrefs(p, a), a) == MergePrefs(p, a)
  {
  }

  /** Two patches in a row are their composition. */
  lemma MergeCompose(p: Preferences, a: PrefsPatch, b: PrefsPatch)
    ensures MergePrefs(MergePrefs(p, a), b) == MergePrefs(p, ComposePatches(a, b))
  {
  }

  /** A single switch (`{ simplified_ui: checked }` and the like) changes
      that preference only. */
  lemma SwitchChangesOnlyItsKey(p: Preferences, on: bool)
    ensures MergePrefs(p, PrefsPatch(None, None, Some(on), None)) == p.(simplifiedUi := on)
    ensures MergePrefs(p, PrefsPatch(None, None, None, Some(on))) == p.(highContrast := on)
    ensures MergePrefs(p, PrefsPatch(None, Some(on), None, None)) == p.(notifications := on)
  {
  }

  // ---------------------------------------------------------------------
  // Saving

  /** A toast: its title and whether it is the destructive (error) kind. */
  datatype Toast = Toast(title: string, destructive: bool)

  const ErrorToast := Toast("Error", true)

  /** The write an update sends: the profile id and the new preferences or
      profile fields. */
  datatype Write = PreferencesWrite(id: string, preferences: Preferences) | ProfileWrite(id: string, patch: ProfilePatch)

  /** The keys of a `Partial<UserProfile>` the screen sends (`full_name`). */
  datatype ProfilePatch = ProfilePatch(fullName: Option<string>)

  datatype UpdateOutcome = UpdateOutcome(state: SettingsState, write: Option<Write>, toast: Option<Toast>)

  /** `updatePreferences`, with the activity log call succeeding: without a
      profile nothing happens; otherwise the merged preferences are shown at
      once (whether or not the save succeeds) and written, and the toast
      reports the save's outcome `saveOk`. */
  function UpdatePreferences(st: SettingsState, patch: PrefsPatch, saveOk: bool): (o: UpdateOutcome)
    ensures st.profile.None? ==> o == UpdateOutcome(st, None, None)
    ensures st.profile.Some? ==>
      && o.state == st.(preferences := MergePrefs(st.preferences, patch))
      && o.write == Some(PreferencesWrite(st.profile.value.id, o.state.preferences))
      && o.toast == Some(if saveOk then Toast("Settings Updated", false) else ErrorToast)
  {
    if st.profile.None? then UpdateOutcome(st, None, None)
    else
      var merged := MergePrefs(st.preferences, patch);
      UpdateOutcome(st.(preferences := merged), Some(PreferencesWrite(st.profile.value.id, merged)),
        Some(if saveOk then Toast("Settings Updated", false) else ErrorToast))
  }

  /** `updatePreferences` as written: after a successful write it awaits
      `trackActivity`, a name the activity hook does not return, so the call
      throws and the catch shows the error toast. */
  function UpdatePreferencesAsWritten(st: SettingsState, patch: PrefsPatch, saveOk: bool): (o: UpdateOutcome)
    ensures o.state == UpdatePreferences(st, patch, saveOk).state
    ensures o.write == UpdatePreferences(st, patch, saveOk).write
    ensures o.toast.Some? <==> UpdatePreferences(st, patch, saveOk).toast.Some?
    ensures o.toast.Some? ==> o.toast == Some(ErrorToast)
  {
    var o := UpdatePreferences(st, patch, saveOk);
    if o.toast.Some? then o.(toast := Some(ErrorToast)) else o
  }

  /** A successful preference save is reported as a failure as written,
      and as a success once the log call is the one the hook provides. */
  lemma SavedPreferencesReportedAsFailure(st: SettingsState, patch: PrefsPatch)
    requires st.profile.Some?
    ensures UpdatePreferencesAsWritten(st, patch, true).toast == Some(ErrorToast)
    ensures UpdatePreferences(st, patch, true).toast == Some(Toast("Settings Updated", false))
    ensures UpdatePreferencesAsWritten(st, patch, true).write == UpdatePreferences(st, patch, true).write
  {
  }

  /** `{ ...profile, ...updates }`. */
  function MergeProfile(p: Profile, patch: ProfilePatch): (r: Profile)
    ensures r.fullName == (if patch.fullName.Some? then patch.fullName else p.fullName)
    ensures r.(fullName := p.fullName) == p
  {
    if patch.fullName.Some? then p.(fullName := patch.fullName) else p
  }

  /** `updateProfile`, with the activity log call succeeding: without a
      profile nothing happens; otherwise the patch is written, and the
      local profile takes the patch only if the write succeeded. */
  function UpdateProfile(st: SettingsState, patch: ProfilePatch, saveOk: bool): (o: UpdateOutcome)
    ensures st.profile.None? ==> o == UpdateOutcome(st, None, None)
    ensures st.profile.Some? ==> o.write == Some(ProfileWrite(st.profile.value.id, patch))
    ensures st.profile.Some? && saveOk ==>
              o.state == st.(profile := Some(MergeProfile(st.profile.value, patch)))
              && o.toast == Some(Toast("Profile Updated", false))
    ensures st.profile.Some? && !saveOk ==> o.state == st && o.toast == Some(ErrorToast)
    ensures o.state.preferences == st.preferences
  {
    if st.profile.None? then UpdateOutcome(st, None, None)
    else
      var w := Some(ProfileWrite(st.profile.value.id, patch));
      if saveOk then
        UpdateOutcome(st.(profile := Some(MergeProfile(st.profile.value, patch))), w, Some(Toast("Profile Updated", false)))
      else UpdateOutcome(st, w, Some(ErrorToast))
  }

  /** `updateProfile` as written: the merge happens, then the call to the
      missing `trackActivity` throws and the error toast is shown. */
  function UpdateProfileAsWritten(st: SettingsState, patch: ProfilePatch, saveOk: bool): (o: UpdateOutcome)
    ensures o.state == UpdateProfile(st, patch, saveOk).state
    ensures o.write == UpdateProfile(st, patch, saveOk).write
    ensures o.toast.Some? <==> UpdateProfile(st, patch, saveOk).toast.Some?
    ensures o.toast.Some? ==> o.toast == Some(ErrorToast)
  {
    var o := UpdateProfile(st, patch, saveOk);
    if o.toast.Some? then o.(toast := Some(ErrorToast)) else o
  }

  lemma SavedProfileReportedAsFailure(st: SettingsState, patch: ProfilePatch)
    requires st.profile.Some?
    ensures UpdateProfileAsWritten(st, patch, true).toast == Some(ErrorToast)
    ensures UpdateProfileAsWritten(st, patch, true).state.profile == Some(MergeProfile(st.profile.value, patch))
    ensures UpdateProfile(st, patch, true).toast == Some(Toast("Profile Updated", false))
  {
  }

  /** The name input edits the local profile directly; Save then sends the
      edited name. */
  function EditName(st: SettingsState, name: string): (r: SettingsState)
    ensures st.profile.None? ==> r == st
    ensures st.profile.Some? ==> r.profile == Some(st.profile.value.(fullName := Some(name)))
    ensures r.preferences == st.preferences
  {
    if st.profile.None? then st else st.(profile := Some(st.profile.value.(fullName := Some(name))))
  }

  /** Because the edit is already local, a failed save still leaves the
      edited name on screen; only the stored row keeps the old one. */
  lemma FailedSaveKeepsEditedName(st: SettingsState, name: string)
    requires st.profile.Some?
    ensures var edited := EditName(st, name);
      var o := UpdateProfile(edited, ProfilePatch(edited.profile.value.fullName), false);
      o.state.profile.value.fullName == Some(name) && o.toast == Some(ErrorToast)
  {
  }

  // ---------------------------------------------------------------------
  // Displayed values

  /** The avatar fallback: word initials of a non-empty full name,
      otherwise the first two characters of the e-mail, upper-cased. */
  function AvatarInitials(p: Profile): (r: string)
    ensures p.fullName.Some? && p.fullName.value != "" ==> r == ToUpper(WordStarts(p.fullName.value, true))
    ensures p.fullName.None? || p.fullName.value == "" ==>
              |r| == (if |p.email| < 2 then |p.email| else 2)
              && forall i :: 0 <= i < |r| ==> r[i] == UpperChar(p.email[i])
  {
    if p.fullName.Some? && p.fullName.value != "" then
      InitialsAreWordStarts(p.fullName.value);
      Initials(p.fullName.value)
    else ToUpper(Take(p.email, 2))
  }

  /** `profile.id.slice(-8).toUpperCase()`: the last eight characters of
      the id (all of a shorter id), upper-cased. */
  function ConnectionCode(id: string): (r: string)
    ensures |r| == (if |id| < 8 then |id| else 8)
    ensures forall i :: 0 <= i < |r| ==> r[i] == UpperChar(id[|id| - |r| + i])
  {
    var tail := Suffix(id, 8);
    assert tail == id[|id| - |tail|..];
    ToUpper(tail)
  }

  /** The code is shown to users, not to caregivers. */
  function ShownConnectionCode(p: Profile): (r: Option<string>)
    ensures r.Some? <==> p.role == User
    ensures r.Some? ==> r.value == ConnectionCode(p.id)
  {
    if p.role == User then Some(ConnectionCode(p.id)) else None
  }

  /** Two ids that agree on their last eight characters share a code. */
  lemma ConnectionCodeOfSuffix(a: string, b: string)
    requires |a| >= 8 && |b| >= 8 && a[|a| - 8..] == b[|b| - 8..]
    ensures ConnectionCode(a) == ConnectionCode(b)
  {
    var ca, cb := ConnectionCode(a), ConnectionCode(b);
    forall i | 0 <= i < 8 ensures ca[i] == cb[i] {
      assert a[|a| - 8..][i] == b[|b| - 8..][i];
    }
  }
}
