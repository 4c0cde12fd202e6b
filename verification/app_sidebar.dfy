/** The sidebar: the avatar initials, the navigation list chosen by role,
    the exact-path `isActive` helper the component declares, and the
    notification badge. The highlighting on screen comes from the router
    link's own match, which is not modelled. */
module AppSidebar {
  import opened Wrappers
  import opened Records
  import opened Text
  import opened Seqs

  /** `getUserInitials(name, email)`: the word initials of a non-empty name;
      otherwise the first two e-mail characters upper-cased, or `U` when
      there is no e-mail or it is empty. */
  function UserInitials(name: Option<string>, email: Option<string>): (r: string)
    ensures name.Some? && name.value != "" ==> r == ToUpper(WordStarts(name.value, true))
    ensures (name.None? || name.value == "") && (email.None? || email.value == "") ==> r == "U"
    ensures (name.None? || name.value == "") && email.Some? && email.value != "" ==>
              r == ToUpper(Take(email.value, 2)) && 1 <= |r| <= 2
  {
    if name.Some? && name.value != "" then
      InitialsAreWordStarts(name.value);
      Initials(name.value)
    else if email.None? then "U"
    else
      var s := ToUpper(Take(email.value, 2));
      if s == "" then "U" else s
  }

  /** Without a usable name the initials are never empty; with a name they
      are empty only when it starts with a space. */
  lemma UserInitialsNonEmpty(name: Option<string>, email: Option<string>)
    ensures name.None? || name.value == "" ==> UserInitials(name, email) != ""
    ensures name.Some? && name.value != "" && name.value[0] != ' ' ==>
              UserInitials(name, email) != "" && UserInitials(name, email)[0] == UpperChar(name.value[0])
  {
    if name.Some? && name.value != "" {
      InitialsOfName(name.value);
      InitialsAreWordStarts(name.value);
    }
  }

  /** A name of one space yields blank initials: the name branch is taken
      and has nothing to show, whatever the e-mail. */
  lemma SpaceNameBlankInitials(email: Option<string>)
    ensures UserInitials(Some(" "), email) == ""
  {
    InitialsAreWordStarts(" ");
    assert " "[1..] == "";
  }

  datatype NavItem = NavItem(title: string, url: string)

  const UserNav: seq<NavItem> := [
    NavItem("Dashboard", "/dashboard"),
    NavItem("Routine Planner", "/routine-planner"),
    NavItem("Emotion Logger", "/emotion-logger"),
    NavItem("AAC Board", "/communication-tools"),
    NavItem("Progress", "/progress")]

  const CaregiverNav: seq<NavItem> := [
    NavItem("Dashboard", "/dashboard"),
    NavItem("My Users", "/users"),
    NavItem("Communication Patterns", "/communication-patterns"),
    NavItem("Reports", "/reports")]

  /** `user?.role === 'caregiver' ? caregiverNavItems : userNavItems`; a
      missing user (`None`) gets the user list. */
  function NavFor(role: Option<Role>): (items: seq<NavItem>)
    ensures role == Some(Caregiver) ==> |items| == 4
    ensures role != Some(Caregiver) ==> |items| == 5
    ensures items[0] == NavItem("Dashboard", "/dashboard")
  {
    if role == Some(Caregiver) then CaregiverNav else UserNav
  }

  /** `isActive`: exact equality with the current path. The component
      declares it but the rendered links do not call it. */
  predicate IsActive(currentPath: string, url: string)
  {
    currentPath == url
  }

  /** No two entries of a list share a url. */
  ghost predicate DistinctUrls(items: seq<NavItem>)
  {
    forall i, j :: 0 <= i < j < |items| ==> items[i].url != items[j].url
  }

  /** Both lists have distinct urls, so `isActive` holds for at most one
      entry of a list for any path; the communication-patterns screen is a
      caregiver entry only. */
  lemma NavListsSpec(role: Option<Role>, currentPath: string)
    ensures DistinctUrls(NavFor(role))
    ensures forall i, j ::
              (0 <= i < |NavFor(role)| && 0 <= j < |NavFor(role)|
               && IsActive(currentPath, NavFor(role)[i].url) && IsActive(currentPath, NavFor(role)[j].url))
              ==> i == j
    ensures (exists i :: 0 <= i < |NavFor(role)| && NavFor(role)[i].url == "/communication-patterns")
              <==> role == Some(Caregiver)
  {
    var items := NavFor(role);
    if role == Some(Caregiver) {
      assert items[2].url == "/communication-patterns";
    } else {
      forall i | 0 <= i < |items| ensures items[i].url != "/communication-patterns" {
        assert items[i] in UserNav;
      }
    }
  }

  /** The badge shows the count when it is positive. */
  function Badge(count: int): (r: Option<int>)
    ensures r.Some? <==> count > 0
    ensures r.Some? ==> r.value == count
  {
    if count > 0 then Some(count) else None
  }

  /** The placeholder notification count. */
  const NotificationCount: int := 3

  lemma BadgeShownForPlaceholder()
    ensures Badge(NotificationCount) == Some(3)
  {
  }
}
