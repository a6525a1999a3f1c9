/** The "Who's watching?" page: the signed-in user's profile list, a manage
    mode in which clicking a profile opens an editor for renaming or deleting
    it, and a form for adding a profile. Every change goes through the
    account store's `addProfile`, `updateProfile`, `removeProfile` and
    `selectProfile`. */
module ProfilesPage {
  import opened Optional
  import opened Strings
  import opened AuthStore

  /** The list shown while nobody is signed in. */
  const PlaceholderProfiles: seq<string> := ["Profile 1", "Profile 2", "Kids"]

  /** The page's own state: manage mode, the two dialogs, the profile being
      edited and the text in the name box. */
  datatype Page = Page(manageMode: bool, showAdd: bool, showEdit: bool,
                       editing: Option<string>, nameBox: string)

  const Start := Page(false, false, false, None, "")

  /** `user?.profiles || [...]`: the signed-in user's list, even when it is
      empty (an array is truthy), and the placeholders otherwise. */
  function Shown(s: Store): (ps: seq<string>)
    ensures s.session.Some? ==> ps == s.session.value.profiles
    ensures s.session.None? ==> ps == PlaceholderProfiles && |ps| == 3
  {
    if s.session.Some? then s.session.value.profiles else PlaceholderProfiles
  }

  /** `editingProfile` as a condition: a profile is being edited and its name
      is a non-empty string. */
  predicate Editing(p: Page) {
    p.editing.Some? && p.editing.value != ""
  }

  /** The delete button is rendered only when more than one profile is shown. */
  predicate DeleteOffered(s: Store) {
    |Shown(s)| > 1
  }

  /** A handler's effect on the page, on the store, and whether it navigated
      to the browse page. */
  datatype Effect = Effect(page: Page, store: Store, navigated: bool)

  /** The editor closed and the name box cleared, as after a save or delete. */
  function Closed(p: Page): (r: Page)
    ensures !r.showEdit && r.editing.None? && r.nameBox == ""
    ensures r.manageMode == p.manageMode && r.showAdd == p.showAdd
  {
    p.(showEdit := false, editing := None, nameBox := "")
  }

  // ---------------------------------------------------------------------
  // Handlers

  /** `handleSelect(name)`: in manage mode it opens the editor on that
      profile with its name in the box; otherwise it makes it the current
      profile and goes to the browse page. */
  function Select(p: Page, s: Store, name: string): (e: Effect)
    ensures e.navigated <==> !p.manageMode
    ensures p.manageMode ==>
      e.store == s && e.page.showEdit && e.page.editing == Some(name) && e.page.nameBox == name
    ensures !p.manageMode ==>
      e.page == p && e.store == SelectProfile(s, name)
  {
    if p.manageMode then
      Effect(p.(editing := Some(name), nameBox := name, showEdit := true), s, false)
    else
      Effect(p, SelectProfile(s, name), true)
  }

  /** `handleAddProfile`: a name that is not blank is added trimmed, and the
      dialog closes; a blank one leaves everything as it was. */
  function SubmitAdd(p: Page, s: Store, today: string): (e: Effect)
    ensures !e.navigated
    ensures Trim(p.nameBox) == "" ==> e == Effect(p, s, false)
    ensures Trim(p.nameBox) != "" ==>
      && e.store == AuthStore.AddProfile(s, Trim(p.nameBox), today)
      && e.page == p.(nameBox := "", showAdd := false)
  {
    var name := Trim(p.nameBox);
    if name != "" then
      Effect(p.(nameBox := "", showAdd := false), AuthStore.AddProfile(s, name, today), false)
    else
      Effect(p, s, false)
  }

  /** `handleSaveEdit`: the profile being edited is renamed to the trimmed
      box text, provided that text is not blank and differs from the old
      name; otherwise nothing happens and the editor stays open. */
  function SaveEdit(p: Page, s: Store, today: string): (e: Effect)
    ensures !e.navigated
    ensures e.page != p || e.store != s ==>
      Editing(p) && Trim(p.nameBox) != "" && Trim(p.nameBox) != p.editing.value
    ensures Editing(p) && Trim(p.nameBox) != "" && Trim(p.nameBox) != p.editing.value ==>
      && e.store == AuthStore.UpdateProfile(s, p.editing.value, Trim(p.nameBox), today)
      && e.page == Closed(p)
  {
    var name := Trim(p.nameBox);
    if Editing(p) && name != "" && name != p.editing.value then
      Effect(Closed(p), AuthStore.UpdateProfile(s, p.editing.value, name, today), false)
    else
      Effect(p, s, false)
  }

  /** `handleDeleteProfile`: the profile being edited is removed, provided
      more than one profile is shown; otherwise nothing happens. */
  function Delete(p: Page, s: Store, today: string): (e: Effect)
    ensures !e.navigated
    ensures e.page != p || e.store != s ==> Editing(p) && DeleteOffered(s)
    ensures Editing(p) && DeleteOffered(s) ==>
      e.store == AuthStore.RemoveProfile(s, p.editing.value, today) && e.page == Closed(p)
  {
    if Editing(p) && |Shown(s)| > 1 then
      Effect(Closed(p), AuthStore.RemoveProfile(s, p.editing.value, today), false)
    else
      Effect(p, s, false)
  }

  // ---------------------------------------------------------------------
  // What the list shows afterwards

  /** The list shown once a profile-list write has landed: the written list
      when the signed-in record exists, the old one when it does not. */
  lemma ShownAfterWrite(s: Store, r: Store, ps: seq<string>, today: string)
    requires s.session.Some? && ProfilesWritten(s, r, ps, today)
    ensures SessionIndex(s).Some? ==> Shown(r) == ps
    ensures SessionIndex(s).None? ==> Shown(r) == Shown(s)
  {
    if SessionIndex(s).Some? {
      var idx := SessionIndex(s).value;
      var a := s.users[idx].(data := s.users[idx].data.(profiles := ps));
      assert ToUserObject(a, today).profiles == a.data.profiles;
    }
  }

  /** Adding a profile puts the trimmed name at the end of the list shown. */
  lemma AddShowsName(p: Page, s: Store, today: string)
    requires s.session.Some? && SessionIndex(s).Some? && Trim(p.nameBox) != ""
    ensures Shown(SubmitAdd(p, s, today).store) == Shown(s) + [Trim(p.nameBox)]
  {
    ShownAfterWrite(s, SubmitAdd(p, s, today).store, s.session.value.profiles + [Trim(p.nameBox)], today);
  }

  /** Saving an edit renames the first occurrence of the old name in the
      list shown, and nothing else in it. */
  lemma SaveRenamesFirst(p: Page, s: Store, today: string)
    requires s.session.Some? && SessionIndex(s).Some?
    requires Editing(p) && Trim(p.nameBox) != "" && Trim(p.nameBox) != p.editing.value
    ensures Shown(SaveEdit(p, s, today).store) == ReplaceFirst(Shown(s), p.editing.value, Trim(p.nameBox))
  {
    ShownAfterWrite(s, SaveEdit(p, s, today).store,
      ReplaceFirst(s.session.value.profiles, p.editing.value, Trim(p.nameBox)), today);
  }

  /** Opening the editor on a profile whose name has no surrounding spaces
      and saving at once changes nothing. */
  lemma OpenThenSaveChangesNothing(p: Page, s: Store, name: string, today: string)
    requires p.manageMode && Trimmed(name)
    ensures var o := Select(p, s, name);
      SaveEdit(o.page, o.store, today) == Effect(o.page, s, false)
  {
    TrimOfTrimmed(name);
  }

  /** A name with surrounding spaces, by contrast, is renamed to its trimmed
      form by that same open-and-save. */
  lemma OpenThenSaveTrims(p: Page, s: Store, name: string, today: string)
    requires p.manageMode && Trim(name) != "" && Trim(name) != name
    ensures var o := Select(p, s, name);
      SaveEdit(o.page, o.store, today).store == AuthStore.UpdateProfile(s, name, Trim(name), today)
  {
  }

  /** Deleting the profile being edited takes every occurrence of it off
      the list shown, unless it was the only name there. */
  lemma DeleteRemovesName(p: Page, s: Store, today: string)
    requires s.session.Some? && SessionIndex(s).Some? && Editing(p) && DeleteOffered(s)
    requires RemoveAll(Shown(s), p.editing.value) != []
    ensures Shown(Delete(p, s, today).store) == RemoveAll(Shown(s), p.editing.value)
    ensures p.editing.value !in Shown(Delete(p, s, today).store)
  {
    var r := Delete(p, s, today).store;
    ShownAfterWrite(s, r.(currentProfile := s.currentProfile), RemoveAll(Shown(s), p.editing.value), today);
  }

  // ---------------------------------------------------------------------
  // The page as a whole

  datatype Event =
    | Click(name: string)
    | ToggleManage
    | OpenAdd
    | CloseAdd
    | Type(text: string)
    | SubmitAddForm
    | SaveEditor
    | DeleteInEditor
    | CloseEditor

  function Apply(p: Page, s: Store, ev: Event, today: string): Effect {
    match ev
    case Click(name) => Select(p, s, name)
    case ToggleManage => Effect(p.(manageMode := !p.manageMode), s, false)
    case OpenAdd => Effect(p.(showAdd := true), s, false)
    case CloseAdd => Effect(p.(showAdd := false), s, false)
    case Type(text) => Effect(p.(nameBox := text), s, false)
    case SubmitAddForm => SubmitAdd(p, s, today)
    case SaveEditor => SaveEdit(p, s, today)
    case DeleteInEditor => Delete(p, s, today)
    case CloseEditor => Effect(p.(showEdit := false, editing := None), s, false)
  }

  /** The editor is open exactly when a profile is being edited. */
  predicate EditorConsistent(p: Page) {
    p.showEdit <==> p.editing.Some?
  }

  /** Every stored record has a profile, and so does the session. */
  predicate ListsNonEmpty(s: Store) {
    && (forall j :: 0 <= j < |s.users| ==> |s.users[j].data.profiles| > 0)
    && (s.session.Some? ==> |s.session.value.profiles| > 0)
  }

  /** A profile-list write of a non-empty list keeps every list non-empty. */
  lemma WriteKeepsNonEmpty(s: Store, r: Store, ps: seq<string>, today: string)
    requires ListsNonEmpty(s) && |ps| > 0 && ProfilesWritten(s, r, ps, today)
    ensures ListsNonEmpty(r)
  {
    if SessionIndex(s).Some? {
      var idx := SessionIndex(s).value;
      var a := s.users[idx].(data := s.users[idx].data.(profiles := ps));
      assert ToUserObject(a, today).profiles == ps;
      assert forall j :: 0 <= j < |r.users| && j != idx ==> r.users[j] == s.users[j];
    }
  }

  /** No sequence of clicks on the page leaves a user without a profile,
      and the editor stays open exactly while a profile is being edited. */
  lemma ApplyKeepsInvariants(p: Page, s: Store, ev: Event, today: string)
    requires EditorConsistent(p) && ListsNonEmpty(s)
    ensures EditorConsistent(Apply(p, s, ev, today).page)
    ensures ListsNonEmpty(Apply(p, s, ev, today).store)
  {
    var e := Apply(p, s, ev, today);
    match ev
    case SubmitAddForm =>
      if Trim(p.nameBox) != "" && s.session.Some? {
        WriteKeepsNonEmpty(s, e.store, s.session.value.profiles + [Trim(p.nameBox)], today);
      }
    case SaveEditor =>
      if e.store != s && s.session.Some? {
        var ps := ReplaceFirst(s.session.value.profiles, p.editing.value, Trim(p.nameBox));
        WriteKeepsNonEmpty(s, e.store, ps, today);
      }
    case DeleteInEditor =>
      if e.store != s && s.session.Some? {
        var ps := RemoveAll(s.session.value.profiles, p.editing.value);
        if ps != [] {
          WriteKeepsNonEmpty(s, e.store.(currentProfile := s.currentProfile), ps, today);
        }
      }
    case _ =>
  }

  function Run(p: Page, s: Store, evs: seq<Event>, today: string): (e: Effect)
    decreases |evs|
  {
    if evs == [] then Effect(p, s, false)
    else
      var first := Apply(p, s, evs[0], today);
      Run(first.page, first.store, evs[1..], today)
  }

  lemma {:induction false} RunKeepsInvariants(p: Page, s: Store, evs: seq<Event>, today: string)
    requires EditorConsistent(p) && ListsNonEmpty(s)
    ensures EditorConsistent(Run(p, s, evs, today).page)
    ensures ListsNonEmpty(Run(p, s, evs, today).store)
    decreases |evs|
  {
    if evs != [] {
      var first := Apply(p, s, evs[0], today);
      ApplyKeepsInvariants(p, s, evs[0], today);
      RunKeepsInvariants(first.page, first.store, evs[1..], today);
    }
  }

  /** Starting from stored lists that are all non-empty, the page never
      shows an empty list of profiles. */
  lemma RunNeverShowsEmpty(p: Page, s: Store, evs: seq<Event>, today: string)
    requires EditorConsistent(p) && ListsNonEmpty(s)
    ensures |Shown(Run(p, s, evs, today).store)| > 0
  {
    RunKeepsInvariants(p, s, evs, today);
  }
}
