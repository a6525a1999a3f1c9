/** The local account store: the list of user records, the map of
    password-reset codes, the signed-in user and the selected profile, with
    the operations the auth context offers. Every operation is a pure
    transition from one store to the next; the clock (`now`, in milliseconds,
    and `today`, the ISO date), the random draw and the fresh user id are
    parameters. */
module AuthStore {
  import opened Optional
  import opened Strings
  import opened Codes

  const CodeExpiryMs: int := 10 * 60 * 1000
  const DefaultName: string := "User"
  const DefaultPlan: string := "standard"
  const FirstProfile: string := "Profile 1"

  const InvalidCredentials: string := "Invalid email or password."
  const EmailTaken: string := "An account with this email already exists."
  const NoAccount: string := "No account found with this email."
  const InvalidCode: string := "Invalid or expired code."
  const CodeExpired: string := "Code has expired. Please request a new one."
  const AccountNotFound: string := "Account not found."

  /** The public part of a user record; `toUserObject` turns a stored record
      into one of these for the session. `None` stands for JSON `null`. */
  datatype UserData = UserData(
    id: string,
    email: string,
    name: string,
    plan: string,
    profiles: seq<string>,
    phone: string,
    twoFA: bool,
    twoFAMethod: Option<string>,
    twoFAValue: string,
    memberSince: string,
    cardBrand: string,
    cardLast4: string,
    planCancelled: bool,
    planEndsAt: Option<string>)

  /** A stored user record: the public part plus the plain-text password. */
  datatype Account = Account(password: string, data: UserData)

  datatype ResetEntry = ResetEntry(code: string, expires: int)

  datatype Store = Store(
    users: seq<Account>,
    resetCodes: map<string, ResetEntry>,
    session: Option<UserData>,
    currentProfile: Option<string>)

  /** `{ success: true }`, `{ success: true, code }` or `{ success: false, error }`. */
  datatype Reply = Done | Issued(code: string) | Refused(error: string)

  datatype Outcome = Outcome(store: Store, reply: Reply)

  // ---------------------------------------------------------------------
  // Email matching

  /** The key the store compares a typed-in email under: trimmed, lower-cased. */
  function EmailKey(email: string): string {
    Lower(Trim(email))
  }

  /** `u.email.toLowerCase() === email.trim().toLowerCase()` */
  predicate SameEmail(a: Account, email: string) {
    Lower(a.data.email) == EmailKey(email)
  }

  /** No two stored emails are equal once lower-cased. */
  ghost predicate UniqueEmails(users: seq<Account>) {
    forall i, j :: 0 <= i < j < |users| ==> Lower(users[i].data.email) != Lower(users[j].data.email)
  }

  lemma UniqueEmailsMatchOnce(users: seq<Account>, email: string, i: nat, j: nat)
    requires UniqueEmails(users)
    requires i < |users| && j < |users|
    requires SameEmail(users[i], email) && SameEmail(users[j], email)
    ensures i == j
  {
  }

  /** `Array.prototype.findIndex`: the first position whose record satisfies `p`. */
  function FindIndex(users: seq<Account>, p: Account -> bool): (r: Option<nat>)
    ensures r.Some? ==> r.value < |users| && p(users[r.value])
    ensures r.Some? ==> forall j :: 0 <= j < r.value ==> !p(users[j])
    ensures r.None? ==> forall j :: 0 <= j < |users| ==> !p(users[j])
  {
    if users == [] then None
    else if p(users[0]) then Some(0)
    else match FindIndex(users[1..], p)
      case None => None
      case Some(k) => Some(k + 1)
  }

  /** `users.findIndex((u) => u.id === id)`, as `Option`. */
  function IndexOfId(users: seq<Account>, id: string): (r: Option<nat>)
    ensures r.Some? ==> r.value < |users| && users[r.value].data.id == id
    ensures r.Some? ==> forall j :: 0 <= j < r.value ==> users[j].data.id != id
    ensures r.None? ==> forall j :: 0 <= j < |users| ==> users[j].data.id != id
  {
    if users == [] then None
    else if users[0].data.id == id then Some(0)
    else match IndexOfId(users[1..], id)
      case None => None
      case Some(k) => Some(k + 1)
  }

  function FindByEmail(users: seq<Account>, email: string): Option<nat> {
    FindIndex(users, (a: Account) => SameEmail(a, email))
  }

  // ---------------------------------------------------------------------
  // toUserObject

  /** The first profile a login selects: `profiles?.[0] || "Profile 1"`. */
  function LoginProfile(profiles: seq<string>): (p: string)
    ensures p != ""
    ensures |profiles| > 0 && profiles[0] != "" ==> p == profiles[0]
  {
    if |profiles| > 0 && profiles[0] != "" then profiles[0] else FirstProfile
  }

  /** `toUserObject`: the session view of a stored record. The password is
      dropped; a blank name, plan or member-since date falls back to its
      default, every other field is copied. */
  function ToUserObject(a: Account, today: string): (u: UserData)
    ensures u.name != "" && u.plan != ""
    ensures a.data.name != "" ==> u.name == a.data.name
    ensures a.data.plan != "" ==> u.plan == a.data.plan
    ensures a.data.memberSince != "" ==> u.memberSince == a.data.memberSince
    ensures a.data.name == "" ==> u.name == DefaultName
    ensures a.data.plan == "" ==> u.plan == DefaultPlan
    ensures a.data.memberSince == "" ==> u.memberSince == today
    ensures u.(name := a.data.name, plan := a.data.plan, memberSince := a.data.memberSince) == a.data
  {
    a.data.(
      name := if a.data.name != "" then a.data.name else DefaultName,
      plan := if a.data.plan != "" then a.data.plan else DefaultPlan,
      memberSince := if a.data.memberSince != "" then a.data.memberSince else today)
  }

  // ---------------------------------------------------------------------
  // login, signup, logout

  /** `login`: the first record whose email matches case-insensitively must
      hold the given password; the session then starts on its first profile. */
  function Login(s: Store, email: string, password: string, today: string): (o: Outcome)
    ensures o.reply == Done || o.reply == Refused(InvalidCredentials)
    ensures o.reply.Refused? ==> o.store == s
    ensures o.reply == Done ==>
      exists i :: 0 <= i < |s.users| && FirstMatch(s.users, email, i) && s.users[i].password == password
        && o.store == s.(session := Some(ToUserObject(s.users[i], today)),
                         currentProfile := Some(LoginProfile(s.users[i].data.profiles)))
    ensures (exists i :: 0 <= i < |s.users| && FirstMatch(s.users, email, i) && s.users[i].password == password)
            ==> o.reply == Done
  {
    match FindByEmail(s.users, email)
    case None => Outcome(s, Refused(InvalidCredentials))
    case Some(i) =>
      if s.users[i].password != password then Outcome(s, Refused(InvalidCredentials))
      else Outcome(s.(session := Some(ToUserObject(s.users[i], today)),
                      currentProfile := Some(LoginProfile(s.users[i].data.profiles))), Done)
  }

  /** Record `i` is the first whose email matches, the one `users.find` yields. */
  predicate FirstMatch(users: seq<Account>, email: string, i: nat)
    requires i < |users|
  {
    SameEmail(users[i], email) && forall j :: 0 <= j < i ==> !SameEmail(users[j], email)
  }

  /** With unique emails, login succeeds exactly when some record matches
      both the email (case-insensitively) and the password. */
  lemma LoginSucceedsIffCredentialsMatch(s: Store, email: string, password: string, today: string)
    requires UniqueEmails(s.users)
    ensures Login(s, email, password, today).reply == Done
        <==> exists i :: 0 <= i < |s.users| && SameEmail(s.users[i], email) && s.users[i].password == password
  {
    if i :| 0 <= i < |s.users| && SameEmail(s.users[i], email) && s.users[i].password == password {
      var k := FindByEmail(s.users, email);
      assert k.Some?;
      UniqueEmailsMatchOnce(s.users, email, k.value, i);
    }
  }

  /** The record `signup` appends. */
  function NewAccount(id: string, email: string, password: string, name: string,
                      planId: string, today: string): Account
  {
    Account(password, UserData(
      id := id,
      email := Trim(email),
      name := if Trim(name) != "" then Trim(name) else DefaultName,
      plan := if planId != "" then planId else DefaultPlan,
      profiles := [FirstProfile],
      phone := "",
      twoFA := false,
      twoFAMethod := None,
      twoFAValue := "",
      memberSince := today,
      cardBrand := "Visa",
      cardLast4 := "4242",
      planCancelled := false,
      planEndsAt := None))
  }

  /** `signup`: refused, changing nothing, when a stored email equals the
      trimmed one case-insensitively; otherwise exactly one record is appended
      and nothing else changes (in particular nobody is signed in). The new
      record takes the trimmed name or "User", the chosen plan or "standard",
      one profile, today's date, no phone, two-factor off and the demo card. */
  function Signup(s: Store, email: string, password: string, name: string, planId: string,
                  freshId: string, today: string): (o: Outcome)
    ensures (exists i :: 0 <= i < |s.users| && SameEmail(s.users[i], email))
            ==> o == Outcome(s, Refused(EmailTaken))
    ensures (forall i :: 0 <= i < |s.users| ==> !SameEmail(s.users[i], email)) ==>
      && o.reply == Done
      && |o.store.users| == |s.users| + 1
      && o.store.users[..|s.users|] == s.users
      && o.store == s.(users := o.store.users)
      && var a := o.store.users[|s.users|];
         && a.password == password
         && a.data.id == freshId
         && a.data.email == Trim(email)
         && a.data.name == (if Trim(name) != "" then Trim(name) else DefaultName)
         && a.data.plan == (if planId != "" then planId else DefaultPlan)
         && a.data.profiles == [FirstProfile]
         && a.data.memberSince == today
         && a.data.phone == "" && !a.data.twoFA
         && a.data.twoFAMethod.None? && a.data.twoFAValue == ""
         && a.data.cardBrand == "Visa" && a.data.cardLast4 == "4242"
         && !a.data.planCancelled && a.data.planEndsAt.None?
  {
    if FindByEmail(s.users, email).Some? then Outcome(s, Refused(EmailTaken))
    else
      var users := s.users + [NewAccount(freshId, email, password, name, planId, today)];
      assert users[..|s.users|] == s.users;
      Outcome(s.(users := users), Done)
  }

  lemma SignupKeepsEmailsUnique(s: Store, email: string, password: string, name: string,
                                planId: string, freshId: string, today: string)
    requires UniqueEmails(s.users)
    ensures UniqueEmails(Signup(s, email, password, name, planId, freshId, today).store.users)
  {
  }

  /** `logout`: nobody signed in and no profile selected; the records stay. */
  function Logout(s: Store): (r: Store)
    ensures r.session.None? && r.currentProfile.None?
    ensures r.users == s.users && r.resetCodes == s.resetCodes
  {
    s.(session := None, currentProfile := None)
  }

  // ---------------------------------------------------------------------
  // updateUser: whitelisted fields only

  /** A JSON value as a caller of `updateUser` passes it. */
  datatype Value = Str(s: string) | Bool(b: bool) | List(items: seq<string>) | Null

  /** The writable fields: the keys of `keyMap`. */
  datatype Field =
    | Name | Plan | Profiles | Phone | TwoFA | TwoFAMethod | TwoFAValue
    | MemberSince | CardBrand | CardLast4 | PlanCancelled | PlanEndsAt | Email

  /** The property a field is stored under (`keyMap` maps each key to itself). */
  function FieldKey(f: Field): string {
    match f
    case Name => "name"
    case Plan => "plan"
    case Profiles => "profiles"
    case Phone => "phone"
    case TwoFA => "twoFA"
    case TwoFAMethod => "twoFAMethod"
    case TwoFAValue => "twoFAValue"
    case MemberSince => "memberSince"
    case CardBrand => "cardBrand"
    case CardLast4 => "cardLast4"
    case PlanCancelled => "planCancelled"
    case PlanEndsAt => "planEndsAt"
    case Email => "email"
  }

  const WritableKeys: set<string> := {
    "name", "plan", "profiles", "phone", "twoFA", "twoFAMethod", "twoFAValue",
    "memberSince", "cardBrand", "cardLast4", "planCancelled", "planEndsAt", "email" }

  /** `keyMap[key]`: the field an update key writes, if it is whitelisted.
      `id` and `password` are not, so no update can change them. */
  function KeyMap(key: string): (r: Option<Field>)
    ensures r.Some? <==> key in WritableKeys
    ensures r.Some? ==> FieldKey(r.value) == key
  {
    if key == "name" then Some(Name)
    else if key == "plan" then Some(Plan)
    else if key == "profiles" then Some(Profiles)
    else if key == "phone" then Some(Phone)
    else if key == "twoFA" then Some(TwoFA)
    else if key == "twoFAMethod" then Some(TwoFAMethod)
    else if key == "twoFAValue" then Some(TwoFAValue)
    else if key == "memberSince" then Some(MemberSince)
    else if key == "cardBrand" then Some(CardBrand)
    else if key == "cardLast4" then Some(CardLast4)
    else if key == "planCancelled" then Some(PlanCancelled)
    else if key == "planEndsAt" then Some(PlanEndsAt)
    else if key == "email" then Some(Email)
    else None
  }

  lemma KeyMapOfFieldKey(f: Field)
    ensures KeyMap(FieldKey(f)) == Some(f)
  {
  }

  /** The JSON shape each field holds. */
  predicate Fits(f: Field, v: Value) {
    match f
    case Profiles => v.List?
    case TwoFA => v.Bool?
    case PlanCancelled => v.Bool?
    case TwoFAMethod => v.Str? || v.Null?
    case PlanEndsAt => v.Str? || v.Null?
    case _ => v.Str?
  }

  /** A nullable string as stored: the string, or `null`. */
  function FromOption(o: Option<string>): (v: Value)
    ensures v == Null <==> o.None?
    ensures forall t :: v == Str(t) <==> o == Some(t)
  {
    match o
    case Some(t) => Str(t)
    case None => Null
  }

  function ToOption(v: Value): Option<string> {
    if v.Str? then Some(v.s) else None
  }

  /** `record[key]` for a writable field. */
  function Get(d: UserData, f: Field): (v: Value)
    ensures Fits(f, v)
  {
    match f
    case Name => Str(d.name)
    case Plan => Str(d.plan)
    case Profiles => List(d.profiles)
    case Phone => Str(d.phone)
    case TwoFA => Bool(d.twoFA)
    case TwoFAMethod => FromOption(d.twoFAMethod)
    case TwoFAValue => Str(d.twoFAValue)
    case MemberSince => Str(d.memberSince)
    case CardBrand => Str(d.cardBrand)
    case CardLast4 => Str(d.cardLast4)
    case PlanCancelled => Bool(d.planCancelled)
    case PlanEndsAt => FromOption(d.planEndsAt)
    case Email => Str(d.email)
  }

  /** `record[key] = v` for a writable field: that field reads back as `v`,
      every other field and the id are untouched. */
  function Set(d: UserData, f: Field, v: Value): (r: UserData)
    requires Fits(f, v)
    ensures Get(r, f) == v
    ensures forall g :: g != f ==> Get(r, g) == Get(d, g)
    ensures r.id == d.id
  {
    match f
    case Name => d.(name := v.s)
    case Plan => d.(plan := v.s)
    case Profiles => d.(profiles := v.items)
    case Phone => d.(phone := v.s)
    case TwoFA => d.(twoFA := v.b)
    case TwoFAMethod => d.(twoFAMethod := ToOption(v))
    case TwoFAValue => d.(twoFAValue := v.s)
    case MemberSince => d.(memberSince := v.s)
    case CardBrand => d.(cardBrand := v.s)
    case CardLast4 => d.(cardLast4 := v.s)
    case PlanCancelled => d.(planCancelled := v.b)
    case PlanEndsAt => d.(planEndsAt := ToOption(v))
    case Email => d.(email := v.s)
  }

  /** One entry of the object passed to `updateUser`. */
  datatype Update = Update(key: string, value: Value)

  /** The entries of a JavaScript object have distinct keys. */
  predicate DistinctKeys(us: seq<Update>) {
    forall i, j :: 0 <= i < j < |us| ==> us[i].key != us[j].key
  }

  /** Every whitelisted entry carries a value of its field's shape. */
  predicate WellTyped(us: seq<Update>) {
    forall i :: 0 <= i < |us| && KeyMap(us[i].key).Some? ==> Fits(KeyMap(us[i].key).value, us[i].value)
  }

  /** `updates[key]`. */
  function Lookup(us: seq<Update>, key: string): (r: Option<Value>)
    ensures r.None? <==> forall i :: 0 <= i < |us| ==> us[i].key != key
  {
    if us == [] then None
    else if us[0].key == key then Some(us[0].value)
    else Lookup(us[1..], key)
  }

  lemma {:induction false} LookupAt(us: seq<Update>, i: nat)
    requires DistinctKeys(us) && i < |us|
    ensures Lookup(us, us[i].key) == Some(us[i].value)
  {
    if i > 0 {
      assert us[0].key != us[i].key;
      assert us[1..][i - 1] == us[i];
      LookupAt(us[1..], i - 1);
    }
  }

  /** `Object.entries(updates).forEach(...)`: each whitelisted entry is written
      to its field; an entry whose key is not whitelisted changes nothing. */
  function ApplyUpdates(d: UserData, us: seq<Update>): (r: UserData)
    requires WellTyped(us) && DistinctKeys(us)
    ensures r.id == d.id
    ensures forall f :: Get(r, f) == Lookup(us, FieldKey(f)).GetOr(Get(d, f))
    decreases |us|
  {
    if us == [] then d
    else
      var d' := match KeyMap(us[0].key)
                case Some(f) => Set(d, f, us[0].value)
                case None => d;
      var r := ApplyUpdates(d', us[1..]);
      assert forall f :: Get(r, f) == Lookup(us, FieldKey(f)).GetOr(Get(d, f)) by {
        forall f
          ensures Get(r, f) == Lookup(us, FieldKey(f)).GetOr(Get(d, f))
        {
          KeyMapOfFieldKey(f);
          if us[0].key == FieldKey(f) {
            assert forall i :: 0 <= i < |us[1..]| ==> us[1..][i].key != FieldKey(f) by {
              forall i | 0 <= i < |us[1..]|
                ensures us[1..][i].key != FieldKey(f)
              {
                assert us[1..][i] == us[i + 1];
              }
            }
          }
        }
      }
      r
  }

  /** What the write leaves in field `f` of record `d`. */
  function Written(d: UserData, us: seq<Update>, f: Field): Value {
    Lookup(us, FieldKey(f)).GetOr(Get(d, f))
  }

  /** `user?.id` present and found in the store: the position `updateUser`
      writes, the first record holding the signed-in id. It is absent exactly
      when nobody is signed in, the id is blank or no record holds it. */
  function SessionIndex(s: Store): (r: Option<nat>)
    ensures r.Some? ==> s.session.Some? && s.session.value.id != ""
    ensures r.Some? ==> r.value < |s.users| && s.users[r.value].data.id == s.session.value.id
    ensures r.Some? ==> forall j :: 0 <= j < r.value ==> s.users[j].data.id != s.session.value.id
    ensures s.session.Some? && s.session.value.id != ""
            && (exists j :: 0 <= j < |s.users| && s.users[j].data.id == s.session.value.id)
            ==> r.Some?
  {
    if s.session.None? || s.session.value.id == "" then None
    else
      IndexOfId(s.users, s.session.value.id)
  }

  /** `users.some((u, i) => i !== idx && u.email.toLowerCase() === key)` */
  predicate HeldByOther(users: seq<Account>, idx: nat, key: string) {
    exists j :: 0 <= j < |users| && j != idx && Lower(users[j].data.email) == key
  }

  /** Writes the updates into record `idx` and refreshes the session from it. */
  function Commit(s: Store, idx: nat, us: seq<Update>, today: string): (r: Store)
    requires idx < |s.users| && WellTyped(us) && DistinctKeys(us)
    ensures |r.users| == |s.users|
    ensures forall j :: 0 <= j < |s.users| && j != idx ==> r.users[j] == s.users[j]
    ensures r.users[idx].password == s.users[idx].password
    ensures r.users[idx].data.id == s.users[idx].data.id
    ensures forall f :: Get(r.users[idx].data, f) == Written(s.users[idx].data, us, f)
    ensures r.session == Some(ToUserObject(r.users[idx], today))
    ensures r.resetCodes == s.resetCodes && r.currentProfile == s.currentProfile
  {
    var a := s.users[idx];
    var a' := a.(data := ApplyUpdates(a.data, us));
    s.(users := s.users[idx := a'], session := Some(ToUserObject(a', today)))
  }

  /** The uniqueness guard as written: `if (updates.email)` only looks at a
      non-empty email, and compares its trimmed form. */
  predicate EmailClashAsWritten(users: seq<Account>, idx: nat, us: seq<Update>) {
    match Lookup(us, "email")
    case Some(Str(e)) => e != "" && HeldByOther(users, idx, Lower(Trim(e)))
    case _ => false
  }

  /** `updateUser` exactly as written: the guard compares the trimmed new
      email but the write stores the raw value. */
  function UpdateUserAsWritten(s: Store, us: seq<Update>, today: string): (r: Store)
    requires WellTyped(us) && DistinctKeys(us)
    ensures SessionIndex(s).None? ==> r == s
    ensures SessionIndex(s).Some? && EmailClashAsWritten(s.users, SessionIndex(s).value, us) ==> r == s
    ensures SessionIndex(s).Some? && !EmailClashAsWritten(s.users, SessionIndex(s).value, us) ==>
      r == Commit(s, SessionIndex(s).value, us, today)
  {
    match SessionIndex(s)
    case None => s
    case Some(idx) =>
      if EmailClashAsWritten(s.users, idx, us) then s else Commit(s, idx, us, today)
  }

  /** The as-written write duplicates an email whenever the guard misses it:
      if another record stores exactly the (non-empty) new email but not its
      trimmed form, the update goes through and two records share it. */
  lemma AsWrittenStoresDuplicate(s: Store, e: string, today: string, other: nat)
    requires SessionIndex(s).Some? && other < |s.users| && other != SessionIndex(s).value
    requires s.users[other].data.email == e
    requires !HeldByOther(s.users, SessionIndex(s).value, Lower(Trim(e)))
    ensures !UniqueEmails(UpdateUserAsWritten(s, [Update("email", Str(e))], today).users)
  {
    var idx := SessionIndex(s).value;
    var r := UpdateUserAsWritten(s, [Update("email", Str(e))], today);
    AsWrittenWritesEmail(s, e, today);
    assert r.users[other] == s.users[other];
    if idx < other {
      assert Lower(r.users[idx].data.email) == Lower(r.users[other].data.email);
    } else {
      assert Lower(r.users[other].data.email) == Lower(r.users[idx].data.email);
    }
  }

  lemma AsWrittenWritesEmail(s: Store, e: string, today: string)
    requires SessionIndex(s).Some?
    requires !HeldByOther(s.users, SessionIndex(s).value, Lower(Trim(e)))
    ensures var r := UpdateUserAsWritten(s, [Update("email", Str(e))], today);
      && |r.users| == |s.users|
      && r.users[SessionIndex(s).value].data.email == e
      && forall j :: 0 <= j < |s.users| && j != SessionIndex(s).value ==> r.users[j] == s.users[j]
  {
    var us := [Update("email", Str(e))];
    var idx := SessionIndex(s).value;
    var r := UpdateUserAsWritten(s, us, today);
    LookupAt(us, 0);
    assert !EmailClashAsWritten(s.users, idx, us);
    assert Get(r.users[idx].data, Email) == Written(s.users[idx].data, us, Email);
  }

  /** Concretely: with "a@x" signed in and "b@x " stored (a record that took
      that email through `updateUser` itself), changing the signed-in email to
      "b@x " leaves two records with the same email. */
  lemma UntrimmedEmailBreaksUniqueness()
    ensures UniqueEmails(TwoUsers("a@x", "b@x ").users)
    ensures !UniqueEmails(UpdateUserAsWritten(TwoUsers("a@x", "b@x "), [Update("email", Str("b@x "))], "2024-01-01").users)
  {
    SampleUnique();
    SampleNotHeld();
    SessionOfTwoUsers("a@x", "b@x ");
    AsWrittenStoresDuplicate(TwoUsers("a@x", "b@x "), "b@x ", "2024-01-01", 1);
  }

  lemma SampleUnique()
    ensures UniqueEmails(TwoUsers("a@x", "b@x ").users)
  {
    SampleLower();
    var s := TwoUsers("a@x", "b@x ");
    assert Lower(s.users[0].data.email) != Lower(s.users[1].data.email);
  }

  lemma SampleNotHeld()
    ensures !HeldByOther(TwoUsers("a@x", "b@x ").users, 0, Lower(Trim("b@x ")))
  {
    SampleTrim();
    SampleNotHeldTrimmed();
  }

  lemma SampleNotHeldTrimmed()
    ensures !HeldByOther(TwoUsers("a@x", "b@x ").users, 0, Lower("b@x"))
  {
    SampleLower();
    var s := TwoUsers("a@x", "b@x ");
    assert Lower(s.users[1].data.email) != Lower("b@x");
  }

  /** An empty email is falsy, so the as-written guard never looks at it: a
      second record can take the empty email. */
  lemma EmptyEmailSkipsGuard()
    ensures UniqueEmails(TwoUsers("a@x", "").users)
    ensures !UniqueEmails(UpdateUserAsWritten(TwoUsers("a@x", ""), [Update("email", Str(""))], "2024-01-01").users)
  {
    var s := TwoUsers("a@x", "");
    assert Lower(s.users[0].data.email) != Lower(s.users[1].data.email);
    SessionOfTwoUsers("a@x", "");
    var us := [Update("email", Str(""))];
    var r := UpdateUserAsWritten(s, us, "2024-01-01");
    LookupAt(us, 0);
    assert Get(r.users[0].data, Email) == Str("");
    assert Lower(r.users[0].data.email) == Lower(r.users[1].data.email);
  }

  lemma SessionOfTwoUsers(first: string, second: string)
    ensures SessionIndex(TwoUsers(first, second)) == Some(0)
  {
  }

  /** A two-record store signed in as the first record (id "1"). */
  function TwoUsers(first: string, second: string): (s: Store)
    ensures |s.users| == 2 && s.users[0].data.email == first && s.users[1].data.email == second
    ensures s.users[0].data.id == "1" && s.users[1].data.id == "2"
    ensures s.session == Some(s.users[0].data)
  {
    var a := UserData("1", first, "A", "standard", [FirstProfile], "", false, None, "",
                      "2024-01-01", "Visa", "4242", false, None);
    var b := a.(id := "2", email := second);
    Store([Account("pw1", a), Account("pw2", b)], map[], Some(a), None)
  }

  lemma SampleTrim()
    ensures Trim("b@x ") == "b@x"
  {
    var t := "b@x ";
    assert t[0] == 'b' && t[3] == ' ' && t[..3] == "b@x";
    assert TrimStart(t) == t;
    assert TrimEnd(t) == TrimEnd("b@x");
    assert TrimEnd("b@x") == "b@x";
  }

  lemma SampleLower()
    ensures Lower("a@x") != Lower("b@x ") && Lower("b@x") != Lower("b@x ")
  {
    assert Lower("a@x")[0] == 'a' && Lower("b@x ")[0] == 'b';
  }

  /** The value the corrected `updateUser` stores for each entry: the email
      is trimmed, as `signup` stores it; everything else is written as given. */
  function NormalizeEmail(us: seq<Update>): (r: seq<Update>)
    ensures |r| == |us|
    ensures forall i :: 0 <= i < |us| ==> r[i].key == us[i].key
    ensures forall i :: 0 <= i < |us| && us[i].key != "email" ==> r[i] == us[i]
    ensures WellTyped(us) ==> WellTyped(r)
    ensures DistinctKeys(us) ==> DistinctKeys(r)
  {
    seq(|us|, i requires 0 <= i < |us| =>
      if us[i].key == "email" && us[i].value.Str? then Update("email", Str(Trim(us[i].value.s))) else us[i])
  }

  /** The corrected guard: whenever the updates carry an email, its trimmed
      form must not be held by another record. */
  predicate EmailClash(users: seq<Account>, idx: nat, us: seq<Update>) {
    match Lookup(us, "email")
    case Some(Str(e)) => HeldByOther(users, idx, Lower(Trim(e)))
    case _ => false
  }

  /** The email the corrected write leaves in record `d`. */
  function WrittenEmail(d: UserData, us: seq<Update>): string {
    match Lookup(us, "email")
    case Some(Str(e)) => Trim(e)
    case _ => d.email
  }

  lemma LookupNormalizedOther(us: seq<Update>, key: string)
    requires DistinctKeys(us) && key != "email"
    ensures Lookup(NormalizeEmail(us), key) == Lookup(us, key)
  {
    var r := NormalizeEmail(us);
    if i :| 0 <= i < |us| && us[i].key == key {
      LookupAt(us, i);
      LookupAt(r, i);
    } else {
      assert forall i :: 0 <= i < |r| ==> r[i].key != key;
    }
  }

  lemma LookupNormalizedEmail(us: seq<Update>)
    requires DistinctKeys(us)
    requires Lookup(us, "email").Some? && Lookup(us, "email").value.Str?
    ensures Lookup(NormalizeEmail(us), "email") == Some(Str(Trim(Lookup(us, "email").value.s)))
  {
    var r := NormalizeEmail(us);
    var i :| 0 <= i < |us| && us[i].key == "email";
    LookupAt(us, i);
    LookupAt(r, i);
  }

  /** Writing the normalised updates is writing the given ones, except that
      the email is stored trimmed. */
  lemma NormalizedWrite(d: UserData, us: seq<Update>)
    requires DistinctKeys(us) && WellTyped(us)
    ensures forall f :: f != Email ==> Written(d, NormalizeEmail(us), f) == Written(d, us, f)
    ensures Written(d, NormalizeEmail(us), Email) == Str(WrittenEmail(d, us))
  {
    forall f | f != Email
      ensures Written(d, NormalizeEmail(us), f) == Written(d, us, f)
    {
      LookupNormalizedOther(us, FieldKey(f));
    }
    match Lookup(us, "email")
    case Some(v) =>
      var i :| 0 <= i < |us| && us[i].key == "email";
      LookupAt(us, i);
      KeyMapOfFieldKey(Email);
      assert v.Str?;
      LookupNormalizedEmail(us);
    case None =>
      LookupNormalizedOther(us, "name");
      assert forall i :: 0 <= i < |NormalizeEmail(us)| ==> NormalizeEmail(us)[i].key != "email";
  }

  /** `updateUser`, with the email guard corrected: a no-op without a signed-in
      user, when the session id is not stored, or when another record holds
      the (trimmed, lower-cased) new email; otherwise only the session's record
      changes, each whitelisted field takes the given value (the email
      trimmed), the password and id stay, and the session is refreshed. */
  function UpdateUser(s: Store, us: seq<Update>, today: string): (r: Store)
    requires WellTyped(us) && DistinctKeys(us)
    ensures SessionIndex(s).None? ==> r == s
    ensures SessionIndex(s).Some? && EmailClash(s.users, SessionIndex(s).value, us) ==> r == s
    ensures |r.users| == |s.users|
    ensures r.resetCodes == s.resetCodes && r.currentProfile == s.currentProfile
    ensures forall j :: 0 <= j < |s.users| ==>
      r.users[j].password == s.users[j].password && r.users[j].data.id == s.users[j].data.id
    ensures SessionIndex(s).Some? && !EmailClash(s.users, SessionIndex(s).value, us) ==>
      var idx := SessionIndex(s).value;
      && (forall j :: 0 <= j < |s.users| && j != idx ==> r.users[j] == s.users[j])
      && (forall f :: f != Email ==> Get(r.users[idx].data, f) == Written(s.users[idx].data, us, f))
      && r.users[idx].data.email == WrittenEmail(s.users[idx].data, us)
      && r.session == Some(ToUserObject(r.users[idx], today))
  {
    match SessionIndex(s)
    case None => s
    case Some(idx) =>
      if EmailClash(s.users, idx, us) then s
      else
        var r := Commit(s, idx, NormalizeEmail(us), today);
        NormalizedWrite(s.users[idx].data, us);
        assert Get(r.users[idx].data, Email) == Str(WrittenEmail(s.users[idx].data, us));
        r
  }

  /** A write keeps ids and the session's id, so the signed-in record is
      found at the same position afterwards. */
  lemma UpdateUserKeepsSessionIndex(s: Store, us: seq<Update>, today: string)
    requires WellTyped(us) && DistinctKeys(us)
    ensures SessionIndex(UpdateUser(s, us, today)) == SessionIndex(s)
  {
    var r := UpdateUser(s, us, today);
    if SessionIndex(s).Some? && !EmailClash(s.users, SessionIndex(s).value, us) {
      var id := s.session.value.id;
      var idx := SessionIndex(s).value;
      assert r.session.value.id == r.users[idx].data.id == id;
      var k := IndexOfId(r.users, id);
      assert k.Some?;
      assert k.value <= idx;
    }
  }

  /** The main invariant: the corrected `updateUser` keeps emails unique. */
  lemma UpdateUserKeepsEmailsUnique(s: Store, us: seq<Update>, today: string)
    requires UniqueEmails(s.users) && WellTyped(us) && DistinctKeys(us)
    ensures UniqueEmails(UpdateUser(s, us, today).users)
  {
    var r := UpdateUser(s, us, today);
    if SessionIndex(s).Some? && !EmailClash(s.users, SessionIndex(s).value, us) {
      var idx := SessionIndex(s).value;
      forall i, j | 0 <= i < j < |r.users|
        ensures Lower(r.users[i].data.email) != Lower(r.users[j].data.email)
      {
        if i == idx || j == idx {
          var other := if i == idx then j else i;
          match Lookup(us, "email")
          case Some(Str(e)) =>
            assert !HeldByOther(s.users, idx, Lower(Trim(e)));
            assert Lower(s.users[other].data.email) != Lower(Trim(e));
          case _ =>
        }
      }
    }
  }

  /** Emails trimmed and non-empty (all the account page ever sends) make the
      as-written and the corrected `updateUser` coincide. */
  lemma AsWrittenAgreesOnTrimmedEmail(s: Store, us: seq<Update>, today: string)
    requires WellTyped(us) && DistinctKeys(us)
    requires EmailArgumentClean(us)
    ensures UpdateUserAsWritten(s, us, today) == UpdateUser(s, us, today)
  {
    if SessionIndex(s).Some? {
      var idx := SessionIndex(s).value;
      assert EmailClash(s.users, idx, us) == EmailClashAsWritten(s.users, idx, us);
      if !EmailClash(s.users, idx, us) {
        assert NormalizeEmail(us) == us by {
          forall i | 0 <= i < |us| && us[i].key == "email"
            ensures NormalizeEmail(us)[i] == us[i]
          {
            LookupAt(us, i);
            TrimOfTrimmed(us[i].value.s);
          }
        }
      }
    }
  }

  /** The email an update carries, if any, is non-empty and trimmed. */
  predicate EmailArgumentClean(us: seq<Update>) {
    match Lookup(us, "email")
    case Some(Str(e)) => e != "" && Trimmed(e)
    case _ => true
  }

  // ---------------------------------------------------------------------
  // Profiles

  /** `profiles[profiles.indexOf(oldName)] = newName` when `oldName` is present:
      only its first occurrence is renamed; without it the list is unchanged. */
  function ReplaceFirst(ps: seq<string>, oldName: string, newName: string): (r: seq<string>)
    ensures |r| == |ps|
    ensures oldName !in ps ==> r == ps
    ensures oldName in ps ==> r == ps[FirstIndex(ps, oldName) := newName]
  {
    if ps == [] then []
    else if ps[0] == oldName then [newName] + ps[1..]
    else [ps[0]] + ReplaceFirst(ps[1..], oldName, newName)
  }

  /** `indexOf`: the position of the first occurrence of a name. */
  function FirstIndex(ps: seq<string>, name: string): (k: nat)
    requires name in ps
    ensures k < |ps| && ps[k] == name && name !in ps[..k]
  {
    if ps[0] == name then 0
    else
      var k := FirstIndex(ps[1..], name);
      assert ps[..k + 1] == [ps[0]] + ps[1..][..k];
      k + 1
  }

  /** `profiles.filter((p) => p !== name)`: every occurrence of `name` goes,
      every other name keeps its multiplicity. */
  function RemoveAll(ps: seq<string>, name: string): (r: seq<string>)
    ensures name !in r
    ensures multiset(r) == multiset(ps)[name := 0]
    ensures ps != [] && ps[0] != name ==> r != [] && r[0] == ps[0]
  {
    if ps == [] then []
    else
      assert ps == [ps[0]] + ps[1..];
      (if ps[0] == name then [] else [ps[0]]) + RemoveAll(ps[1..], name)
  }

  /** The filter keeps order: it works piecewise over concatenation. */
  lemma {:induction false} RemoveAllAppend(a: seq<string>, b: seq<string>, name: string)
    ensures RemoveAll(a + b, name) == RemoveAll(a, name) + RemoveAll(b, name)
  {
    if a == [] {
      assert a + b == b;
    } else {
      assert (a + b)[1..] == a[1..] + b;
      RemoveAllAppend(a[1..], b, name);
    }
  }

  /** The store after `updateUser({ profiles: ps })`: the signed-in record's
      list becomes `ps` and the session is refreshed from it; if nobody is
      signed in or the record is gone, nothing changes. */
  ghost predicate ProfilesWritten(s: Store, r: Store, ps: seq<string>, today: string) {
    match SessionIndex(s)
    case None => r == s
    case Some(idx) =>
      var a := s.users[idx].(data := s.users[idx].data.(profiles := ps));
      r == s.(users := s.users[idx := a], session := Some(ToUserObject(a, today)))
  }

  function SetProfiles(s: Store, ps: seq<string>, today: string): (r: Store)
    ensures ProfilesWritten(s, r, ps, today)
  {
    var us := [Update("profiles", List(ps))];
    var r := UpdateUser(s, us, today);
    if SessionIndex(s).Some? then
      var idx := SessionIndex(s).value;
      LookupAt(us, 0);
      assert Lookup(us, "email").None?;
      var d := s.users[idx].data.(profiles := ps);
      KeyMapOfFieldKey(Profiles);
      assert us[1..] == [];
      assert ApplyUpdates(s.users[idx].data, us) == d;
      assert NormalizeEmail(us) == us;
      assert r.users == s.users[idx := s.users[idx].(data := d)];
      r
    else
      r
  }

  /** `updateProfile(oldName, newName)`: the signed-in user's list with the
      first `oldName` renamed is written back. */
  function UpdateProfile(s: Store, oldName: string, newName: string, today: string): (r: Store)
    ensures s.session.None? ==> r == s
    ensures s.session.Some? ==>
      ProfilesWritten(s, r, ReplaceFirst(s.session.value.profiles, oldName, newName), today)
  {
    if s.session.None? then s
    else SetProfiles(s, ReplaceFirst(s.session.value.profiles, oldName, newName), today)
  }

  /** `addProfile(name)`: the name is appended at the end of the list. */
  function AddProfile(s: Store, name: string, today: string): (r: Store)
    ensures s.session.None? ==> r == s
    ensures s.session.Some? ==> ProfilesWritten(s, r, s.session.value.profiles + [name], today)
  {
    if s.session.None? then s
    else SetProfiles(s, s.session.value.profiles + [name], today)
  }

  /** `removeProfile(name)`: every occurrence goes, unless that would leave the
      list empty; a removed current profile is replaced by the first one left.
      No record's list is ever emptied by it. */
  function RemoveProfile(s: Store, name: string, today: string): (r: Store)
    ensures s.session.None? || RemoveAll(s.session.value.profiles, name) == [] ==> r == s
    ensures s.session.Some? && RemoveAll(s.session.value.profiles, name) != [] ==>
      var ps := RemoveAll(s.session.value.profiles, name);
      && ProfilesWritten(s, r.(currentProfile := s.currentProfile), ps, today)
      && r.currentProfile == (if s.currentProfile == Some(name) then Some(ps[0]) else s.currentProfile)
    ensures r.currentProfile != s.currentProfile ==> r.currentProfile.Some? && r.currentProfile.value != name
  {
    if s.session.None? then s
    else
      var ps := RemoveAll(s.session.value.profiles, name);
      if |ps| < 1 then s
      else
        var r := SetProfiles(s, ps, today);
        if s.currentProfile == Some(name) then r.(currentProfile := Some(ps[0])) else r
  }

  /** No record that had a profile is left without one by `removeProfile`. */
  lemma RemoveProfileNeverEmpties(s: Store, name: string, today: string)
    ensures var r := RemoveProfile(s, name, today);
      && |r.users| == |s.users|
      && forall j :: 0 <= j < |s.users| && |s.users[j].data.profiles| > 0 ==> |r.users[j].data.profiles| > 0
  {
    var r := RemoveProfile(s, name, today);
    if s.session.Some? && RemoveAll(s.session.value.profiles, name) != [] && SessionIndex(s).Some? {
      var idx := SessionIndex(s).value;
      assert r.users[idx].data.profiles == RemoveAll(s.session.value.profiles, name);
    }
  }

  /** `selectProfile(name)`: only the current profile changes. */
  function SelectProfile(s: Store, name: string): (r: Store)
    ensures r.currentProfile == Some(name)
    ensures r.(currentProfile := s.currentProfile) == s
  {
    s.(currentProfile := Some(name))
  }

  // ---------------------------------------------------------------------
  // verifyPassword

  /** `verifyPassword(password)`: false without a signed-in email; otherwise
      the first record with exactly the session's email must hold it. */
  function VerifyPassword(s: Store, password: string): (ok: bool)
    ensures ok ==> s.session.Some? && s.session.value.email != ""
    ensures s.session.Some? && s.session.value.email != "" ==>
      (ok <==> exists i :: 0 <= i < |s.users| && s.users[i].data.email == s.session.value.email
                           && (forall j :: 0 <= j < i ==> s.users[j].data.email != s.session.value.email)
                           && s.users[i].password == password)
  {
    if s.session.None? || s.session.value.email == "" then false
    else
      var email := s.session.value.email;
      match FindIndex(s.users, (a: Account) => a.data.email == email)
      case None => false
      case Some(i) => s.users[i].password == password
  }

  /** After a successful login with a non-blank email, `verifyPassword`
      accepts exactly the password that was used to log in. */
  lemma LoginThenVerifyPassword(s: Store, email: string, password: string, guess: string, today: string)
    requires UniqueEmails(s.users) && Trim(email) != ""
    requires Login(s, email, password, today).reply == Done
    ensures VerifyPassword(Login(s, email, password, today).store, guess) <==> guess == password
  {
    var o := Login(s, email, password, today);
    var i :| 0 <= i < |s.users| && SameEmail(s.users[i], email) && s.users[i].password == password
             && o.store == s.(session := Some(ToUserObject(s.users[i], today)),
                              currentProfile := Some(LoginProfile(s.users[i].data.profiles)));
    var e := s.users[i].data.email;
    assert |Lower(e)| == |Trim(email)|;
    var k := FindIndex(s.users, (a: Account) => a.data.email == e);
    assert k.Some?;
    assert Lower(s.users[k.value].data.email) == Lower(e);
    UniqueEmailsMatchOnce(s.users, email, k.value, i);
  }

  // ---------------------------------------------------------------------
  // Password reset

  /** Some record's email matches case-insensitively. */
  ghost predicate Registered(users: seq<Account>, email: string) {
    exists i :: 0 <= i < |users| && SameEmail(users[i], email)
  }

  /** `requestPasswordReset(email)`: unknown emails are refused; otherwise a
      six-digit code, expiring ten minutes from `now`, is stored under the
      trimmed, lower-cased email (replacing any earlier one) and returned. */
  function RequestPasswordReset(s: Store, email: string, r: real, now: int): (o: Outcome)
    requires 0.0 <= r < 1.0
    ensures !Registered(s.users, email) ==> o == Outcome(s, Refused(NoAccount))
    ensures Registered(s.users, email) ==>
      && o.reply.Issued?
      && |o.reply.code| == 6 && AllDigits(o.reply.code)
      && 100000 <= DecimalValue(o.reply.code) <= 999999
      && o.store == s.(resetCodes := s.resetCodes[EmailKey(email) := ResetEntry(o.reply.code, now + CodeExpiryMs)])
  {
    if FindByEmail(s.users, email).None? then Outcome(s, Refused(NoAccount))
    else
      var code := GenerateCode(r);
      Outcome(s.(resetCodes := s.resetCodes[EmailKey(email) := ResetEntry(code, now + CodeExpiryMs)]), Issued(code))
  }

  /** `resetPassword(email, code, newPassword)`: a missing entry or a wrong
      code is refused and changes nothing; an expired entry (`now > expires`)
      is refused and deleted; otherwise the first matching record takes the new
      password and the entry is deleted. */
  function ResetPassword(s: Store, email: string, code: string, newPassword: string, now: int): (o: Outcome)
    ensures o.reply == Done || o.reply.Refused?
    ensures var key := EmailKey(email);
      key !in s.resetCodes || s.resetCodes[key].code != code ==> o == Outcome(s, Refused(InvalidCode))
    ensures var key := EmailKey(email);
      key in s.resetCodes && s.resetCodes[key].code == code && now > s.resetCodes[key].expires ==>
        o == Outcome(s.(resetCodes := s.resetCodes - {key}), Refused(CodeExpired))
    ensures var key := EmailKey(email);
      key in s.resetCodes && s.resetCodes[key].code == code && now <= s.resetCodes[key].expires ==>
        if Registered(s.users, email) then o.reply == Done else o == Outcome(s, Refused(AccountNotFound))
    ensures o.reply == Done ==>
      exists i :: 0 <= i < |s.users| && SameEmail(s.users[i], email)
        && (forall j :: 0 <= j < i ==> !SameEmail(s.users[j], email))
        && o.store == s.(users := s.users[i := s.users[i].(password := newPassword)],
                         resetCodes := s.resetCodes - {EmailKey(email)})
  {
    var key := EmailKey(email);
    if key !in s.resetCodes || s.resetCodes[key].code != code then Outcome(s, Refused(InvalidCode))
    else if now > s.resetCodes[key].expires then
      Outcome(s.(resetCodes := s.resetCodes - {key}), Refused(CodeExpired))
    else
      match FindByEmail(s.users, email)
      case None => Outcome(s, Refused(AccountNotFound))
      case Some(i) =>
        Outcome(s.(users := s.users[i := s.users[i].(password := newPassword)],
                   resetCodes := s.resetCodes - {key}), Done)
  }

  /** A reset code works at most once: after a successful reset every further
      attempt for that email is refused until a new code is requested. */
  lemma ResetCodeWorksOnce(s: Store, email: string, code: string, newPassword: string, now: int,
                           code2: string, password2: string, now2: int)
    requires ResetPassword(s, email, code, newPassword, now).reply == Done
    ensures ResetPassword(ResetPassword(s, email, code, newPassword, now).store, email, code2, password2, now2)
            == Outcome(ResetPassword(s, email, code, newPassword, now).store, Refused(InvalidCode))
  {
  }

  /** An expired code is refused and discarded, so it stays refused. */
  lemma ExpiredCodeIsDiscarded(s: Store, email: string, code: string, newPassword: string, now: int,
                               password2: string, now2: int)
    requires EmailKey(email) in s.resetCodes && s.resetCodes[EmailKey(email)].code == code
    requires now > s.resetCodes[EmailKey(email)].expires
    ensures ResetPassword(s, email, code, newPassword, now).reply == Refused(CodeExpired)
    ensures ResetPassword(ResetPassword(s, email, code, newPassword, now).store, email, code, password2, now2).reply
            == Refused(InvalidCode)
  {
  }

  /** Requesting a code and redeeming it within ten minutes sets the password
      of the account the email names. */
  lemma RequestThenReset(s: Store, email: string, r: real, now: int, newPassword: string, later: int)
    requires 0.0 <= r < 1.0 && Registered(s.users, email)
    requires later <= now + CodeExpiryMs
    ensures var o1 := RequestPasswordReset(s, email, r, now);
            var o2 := ResetPassword(o1.store, email, o1.reply.code, newPassword, later);
            && o2.reply == Done
            && exists i :: 0 <= i < |s.users| && SameEmail(s.users[i], email)
                           && o2.store.users[i].password == newPassword
  {
    var o1 := RequestPasswordReset(s, email, r, now);
    assert o1.store.users == s.users;
    assert Registered(o1.store.users, email);
  }

  // ---------------------------------------------------------------------
  // The invariant across every operation

  /** One call into the auth context. */
  datatype Op =
    | LoginOp(email: string, password: string)
    | SignupOp(email: string, password: string, name: string, planId: string, freshId: string)
    | LogoutOp
    | UpdateOp(updates: seq<Update>)
    | UpdateProfileOp(oldName: string, newName: string)
    | AddProfileOp(name: string)
    | RemoveProfileOp(name: string)
    | SelectProfileOp(name: string)
    | RequestResetOp(email: string, r: real)
    | ResetOp(email: string, code: string, newPassword: string)

  /** An operation together with the clock it runs at. */
  datatype Event = Event(op: Op, now: int, today: string)

  predicate Admissible(op: Op) {
    match op
    case UpdateOp(us) => WellTyped(us) && DistinctKeys(us)
    case RequestResetOp(_, r) => 0.0 <= r < 1.0
    case _ => true
  }

  function Step(s: Store, e: Event): Store
    requires Admissible(e.op)
  {
    match e.op
    case LoginOp(email, password) => Login(s, email, password, e.today).store
    case SignupOp(email, password, name, planId, id) => Signup(s, email, password, name, planId, id, e.today).store
    case LogoutOp => Logout(s)
    case UpdateOp(us) => UpdateUser(s, us, e.today)
    case UpdateProfileOp(oldName, newName) => UpdateProfile(s, oldName, newName, e.today)
    case AddProfileOp(name) => AddProfile(s, name, e.today)
    case RemoveProfileOp(name) => RemoveProfile(s, name, e.today)
    case SelectProfileOp(name) => SelectProfile(s, name)
    case RequestResetOp(email, r) => RequestPasswordReset(s, email, r, e.now).store
    case ResetOp(email, code, pw) => ResetPassword(s, email, code, pw, e.now).store
  }

  /** A profile-list write touches no email. */
  lemma ProfilesWrittenKeepsEmails(s: Store, r: Store, ps: seq<string>, today: string)
    requires ProfilesWritten(s, r, ps, today) && UniqueEmails(s.users)
    ensures UniqueEmails(r.users)
  {
    if SessionIndex(s).Some? {
      assert forall j :: 0 <= j < |r.users| ==> r.users[j].data.email == s.users[j].data.email;
    }
  }

  /** Every single operation keeps stored emails unique. */
  lemma StepKeepsEmailsUnique(s: Store, e: Event)
    requires UniqueEmails(s.users) && Admissible(e.op)
    ensures UniqueEmails(Step(s, e).users)
  {
    match e.op
    case SignupOp(email, password, name, planId, id) =>
      SignupKeepsEmailsUnique(s, email, password, name, planId, id, e.today);
    case UpdateOp(us) =>
      UpdateUserKeepsEmailsUnique(s, us, e.today);
    case UpdateProfileOp(oldName, newName) =>
      if s.session.Some? {
        ProfilesWrittenKeepsEmails(s, Step(s, e),
          ReplaceFirst(s.session.value.profiles, oldName, newName), e.today);
      }
    case AddProfileOp(name) =>
      if s.session.Some? {
        ProfilesWrittenKeepsEmails(s, Step(s, e), s.session.value.profiles + [name], e.today);
      }
    case RemoveProfileOp(name) =>
      var r := RemoveProfile(s, name, e.today);
      if s.session.Some? && RemoveAll(s.session.value.profiles, name) != [] {
        ProfilesWrittenKeepsEmails(s, r.(currentProfile := s.currentProfile),
          RemoveAll(s.session.value.profiles, name), e.today);
      }
    case ResetOp(email, code, pw) =>
      var o := ResetPassword(s, email, code, pw, e.now);
      assert forall j :: 0 <= j < |s.users| ==> o.store.users[j].data == s.users[j].data;
    case _ =>
  }

  function Run(s: Store, events: seq<Event>): Store
    requires forall i :: 0 <= i < |events| ==> Admissible(events[i].op)
    decreases |events|
  {
    if events == [] then s else Run(Step(s, events[0]), events[1..])
  }

  /** Any sequence of operations from a store with unique emails ends in one. */
  lemma {:induction false} RunKeepsEmailsUnique(s: Store, events: seq<Event>)
    requires UniqueEmails(s.users)
    requires forall i :: 0 <= i < |events| ==> Admissible(events[i].op)
    ensures UniqueEmails(Run(s, events).users)
    decreases |events|
  {
    if events != [] {
      StepKeepsEmailsUnique(s, events[0]);
      RunKeepsEmailsUnique(Step(s, events[0]), events[1..]);
    }
  }

  /** One call into the auth context with `updateUser` exactly as written. */
  function StepAsWritten(s: Store, e: Event): Store
    requires Admissible(e.op)
  {
    match e.op
    case UpdateOp(us) => UpdateUserAsWritten(s, us, e.today)
    case _ => Step(s, e)
  }

  /** What the app's own callers pass: an email update, if any, carries a
      trimmed, non-blank address (AccountPage trims and refuses blanks; the
      other updates carry no email). */
  predicate InAppCall(op: Op) {
    match op
    case UpdateOp(us) => EmailArgumentClean(us)
    case _ => true
  }

  function RunAsWritten(s: Store, events: seq<Event>): Store
    requires forall i :: 0 <= i < |events| ==> Admissible(events[i].op)
    decreases |events|
  {
    if events == [] then s else RunAsWritten(StepAsWritten(s, events[0]), events[1..])
  }

  /** Through the app's own calls the code as written never stores two equal
      emails: the defect in `updateUser` needs a direct call with an untrimmed
      or empty address. */
  lemma {:induction false} RunAsWrittenKeepsEmailsUnique(s: Store, events: seq<Event>)
    requires UniqueEmails(s.users)
    requires forall i :: 0 <= i < |events| ==> Admissible(events[i].op) && InAppCall(events[i].op)
    ensures UniqueEmails(RunAsWritten(s, events).users)
    decreases |events|
  {
    if events != [] {
      var e := events[0];
      if e.op.UpdateOp? {
        AsWrittenAgreesOnTrimmedEmail(s, e.op.updates, e.today);
      }
      assert StepAsWritten(s, e) == Step(s, e);
      StepKeepsEmailsUnique(s, e);
      RunAsWrittenKeepsEmailsUnique(StepAsWritten(s, e), events[1..]);
    }
  }
}
