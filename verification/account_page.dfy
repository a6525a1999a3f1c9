/** The account page: each handler checks its form and turns it into one
    `updateUser` (or `updateProfile`) call on the signed-in record; the
    change-email form sits behind a code check that only exists while
    two-factor is on. */
module AccountPage {
  import opened Optional
  import opened Strings
  import opened AuthStore
  import TwoFactor

  /** The translation keys of the page's form errors. */
  const InvalidCardKey := "account.errorInvalidCard"
  const InvalidEmailKey := "account.errorInvalidEmail"
  const EmailExistsKey := "account.errorEmailExists"
  const InvalidPhoneKey := "account.errorInvalidPhone"

  /** A handler's effect: the store afterwards and the form error, if any. */
  datatype Handled = Handled(store: Store, error: Option<string>)

  /** The record `updateUser` writes to: the stored one with the session's id. */
  function Record(s: Store): (d: Option<UserData>)
    ensures d.Some? <==> SessionIndex(s).Some?
  {
    match SessionIndex(s)
    case None => None
    case Some(idx) => Some(s.users[idx].data)
  }

  /** The store once the signed-in record holds `d` (with the same id): its
      password, every other record, the reset codes and the current profile
      are kept, and the session is refreshed from the new record. */
  function Put(s: Store, d: UserData, today: string): (r: Store)
    requires Record(s).Some? && d.id == Record(s).value.id
    ensures Record(r) == Some(d)
    ensures |r.users| == |s.users|
    ensures forall j :: 0 <= j < |s.users| && j != SessionIndex(s).value ==> r.users[j] == s.users[j]
    ensures r.users[SessionIndex(s).value].password == s.users[SessionIndex(s).value].password
    ensures r.resetCodes == s.resetCodes && r.currentProfile == s.currentProfile
  {
    var idx := SessionIndex(s).value;
    var a := s.users[idx].(data := d);
    var r := s.(users := s.users[idx := a], session := Some(ToUserObject(a, today)));
    var id := s.session.value.id;
    assert IndexOfId(s.users, id) == Some(idx);
    assert r.session.value.id == id && r.users[idx].data.id == id;
    var k := IndexOfId(r.users, id);
    assert k == Some(idx);
    r
  }

  /** A second write to the signed-in record replaces the first. */
  lemma PutTwice(s: Store, d1: UserData, d2: UserData, today: string)
    requires Record(s).Some? && d1.id == Record(s).value.id && d2.id == d1.id
    ensures Put(Put(s, d1, today), d2, today) == Put(s, d2, today)
  {
    var idx := SessionIndex(s).value;
    var m := Put(s, d1, today);
    assert SessionIndex(m) == Some(idx);
    assert m.users[idx := m.users[idx].(data := d2)] == s.users[idx := s.users[idx].(data := d2)];
  }

  /** The update object `{ [FieldKey(fs[i])]: vs[i], ... }` a handler builds. */
  function Puts(fs: seq<Field>, vs: seq<Value>): (us: seq<Update>)
    requires |fs| == |vs|
    ensures |us| == |fs|
    ensures forall i :: 0 <= i < |fs| ==> us[i] == Update(FieldKey(fs[i]), vs[i])
  {
    seq(|fs|, i requires 0 <= i < |fs| => Update(FieldKey(fs[i]), vs[i]))
  }

  /** Distinct fields, each given a value of its shape. */
  predicate FieldWrites(fs: seq<Field>, vs: seq<Value>) {
    && |fs| == |vs|
    && (forall i, j :: 0 <= i < j < |fs| ==> fs[i] != fs[j])
    && (forall i :: 0 <= i < |fs| ==> Fits(fs[i], vs[i]))
  }

  /** Field names are distinct keys. */
  lemma FieldKeyInjective(f: Field, g: Field)
    ensures FieldKey(f) == FieldKey(g) <==> f == g
  {
    KeyMapOfFieldKey(f);
    KeyMapOfFieldKey(g);
  }

  /** Such an update is well formed, and names exactly the fields `fs`. */
  lemma LookupPuts(fs: seq<Field>, vs: seq<Value>, g: Field)
    requires FieldWrites(fs, vs)
    ensures WellTyped(Puts(fs, vs)) && DistinctKeys(Puts(fs, vs))
    ensures g !in fs ==> Lookup(Puts(fs, vs), FieldKey(g)).None?
  {
    var us := Puts(fs, vs);
    forall i, j | 0 <= i < j < |us| ensures us[i].key != us[j].key {
      FieldKeyInjective(fs[i], fs[j]);
    }
    forall i | 0 <= i < |us| && KeyMap(us[i].key).Some?
      ensures Fits(KeyMap(us[i].key).value, us[i].value)
    {
      KeyMapOfFieldKey(fs[i]);
    }
    forall i | 0 <= i < |us| ensures us[i].key == FieldKey(g) <==> fs[i] == g {
      FieldKeyInjective(fs[i], g);
    }
  }

  /** The record after writing `vs[i]` into field `fs[i]`, in order: a field
      not named keeps its value, a named one holds the last value written to it. */
  function Assign(d: UserData, fs: seq<Field>, vs: seq<Value>): (r: UserData)
    requires |fs| == |vs| && forall i :: 0 <= i < |fs| ==> Fits(fs[i], vs[i])
    ensures r.id == d.id
    ensures forall g :: g !in fs ==> Get(r, g) == Get(d, g)
    ensures forall i :: 0 <= i < |fs| && LastWriteOf(fs, i) ==> Get(r, fs[i]) == vs[i]
    decreases |fs|
  {
    if fs == [] then d
    else
      var r := Assign(Set(d, fs[0], vs[0]), fs[1..], vs[1..]);
      assert forall i :: 1 <= i < |fs| && LastWriteOf(fs, i) ==> LastWriteOf(fs[1..], i - 1) by {
        forall i | 1 <= i < |fs| && LastWriteOf(fs, i) ensures LastWriteOf(fs[1..], i - 1) {
          forall j | i - 1 < j < |fs[1..]| ensures fs[1..][j] != fs[1..][i - 1] {
            assert fs[1..][j] == fs[j + 1];
          }
        }
      }
      r
  }

  /** No later entry of `fs` names the same field as entry `i`. */
  predicate LastWriteOf(fs: seq<Field>, i: nat)
    requires i < |fs|
  {
    forall j :: i < j < |fs| ==> fs[j] != fs[i]
  }

  /** Assigning one, two or three fields is a chain of single writes. */
  lemma AssignOne(d: UserData, f: Field, v: Value)
    requires Fits(f, v)
    ensures Assign(d, [f], [v]) == Set(d, f, v)
  {
    assert [f][1..] == [];
  }

  lemma AssignTwo(d: UserData, f: Field, g: Field, v: Value, w: Value)
    requires Fits(f, v) && Fits(g, w)
    ensures Assign(d, [f, g], [v, w]) == Set(Set(d, f, v), g, w)
  {
    assert [f, g][1..] == [g] && [v, w][1..] == [w];
    AssignOne(Set(d, f, v), g, w);
  }

  lemma AssignThree(d: UserData, f: Field, g: Field, h: Field, u: Value, v: Value, w: Value)
    requires Fits(f, u) && Fits(g, v) && Fits(h, w)
    ensures Assign(d, [f, g, h], [u, v, w]) == Set(Set(Set(d, f, u), g, v), h, w)
  {
    assert [f, g, h][1..] == [g, h] && [u, v, w][1..] == [v, w];
    AssignTwo(Set(d, f, u), g, h, v, w);
  }

  /** One, two or three distinct fields, each with a value of its shape. */
  lemma WritesOne(f: Field, v: Value)
    requires Fits(f, v)
    ensures FieldWrites([f], [v])
  {
  }

  lemma WritesTwo(f: Field, g: Field, v: Value, w: Value)
    requires f != g && Fits(f, v) && Fits(g, w)
    ensures FieldWrites([f, g], [v, w])
  {
  }

  lemma WritesThree(f: Field, g: Field, h: Field, u: Value, v: Value, w: Value)
    requires f != g && f != h && g != h && Fits(f, u) && Fits(g, v) && Fits(h, w)
    ensures FieldWrites([f, g, h], [u, v, w])
  {
  }

  /** `updateUser`'s loop over such an update writes the fields in order. */
  lemma {:induction false} ApplyPuts(d: UserData, fs: seq<Field>, vs: seq<Value>)
    requires FieldWrites(fs, vs)
    ensures WellTyped(Puts(fs, vs)) && DistinctKeys(Puts(fs, vs))
    ensures ApplyUpdates(d, Puts(fs, vs)) == Assign(d, fs, vs)
    decreases |fs|
  {
    LookupPuts(fs, vs, Email);
    if fs != [] {
      var us := Puts(fs, vs);
      KeyMapOfFieldKey(fs[0]);
      assert us[1..] == Puts(fs[1..], vs[1..]);
      ApplyPuts(Set(d, fs[0], vs[0]), fs[1..], vs[1..]);
    }
  }

  /** `updateUser` with the fields `fs` (never the email) set to `vs`: the
      signed-in record, if any, becomes the one with those fields assigned. */
  function WriteRecord(s: Store, fs: seq<Field>, vs: seq<Value>, today: string): (r: Store)
    requires FieldWrites(fs, vs) && Email !in fs
    ensures Record(s).None? ==> r == s
    ensures Record(s).Some? ==> r == Put(s, Assign(Record(s).value, fs, vs), today)
  {
    var us := Puts(fs, vs);
    LookupPuts(fs, vs, Email);
    if Record(s).Some? then
      var idx := SessionIndex(s).value;
      assert !EmailClash(s.users, idx, us);
      assert NormalizeEmail(us) == us by {
        forall i | 0 <= i < |us| ensures us[i].key != "email" {
          FieldKeyInjective(fs[i], Email);
        }
      }
      ApplyPuts(s.users[idx].data, fs, vs);
      UpdateUser(s, us, today)
    else
      UpdateUser(s, us, today)
  }

  // ---------------------------------------------------------------------
  // Plan

  /** The fields `handleChangePlan` writes, as a record update. */
  lemma PlanFields(d: UserData, planId: string)
    ensures Assign(d, [Plan, PlanCancelled, PlanEndsAt], [Str(planId), Bool(false), Null])
         == d.(plan := planId, planCancelled := false, planEndsAt := None)
  {
    AssignThree(d, Plan, PlanCancelled, PlanEndsAt, Str(planId), Bool(false), Null);
  }

  /** `handleChangePlan(planId)`: the new plan, and any cancellation undone. */
  function ChangePlan(s: Store, planId: string, today: string): (r: Store)
    ensures Record(s).None? ==> r == s
    ensures Record(s).Some? ==>
      r == Put(s, Record(s).value.(plan := planId, planCancelled := false, planEndsAt := None), today)
  {
    WritesThree(Plan, PlanCancelled, PlanEndsAt, Str(planId), Bool(false), Null);
    if Record(s).Some? then
      PlanFields(Record(s).value, planId);
      WriteRecord(s, [Plan, PlanCancelled, PlanEndsAt], [Str(planId), Bool(false), Null], today)
    else
      WriteRecord(s, [Plan, PlanCancelled, PlanEndsAt], [Str(planId), Bool(false), Null], today)
  }

  /** The fields `handleCancelPlan` writes, as a record update. */
  lemma CancelFields(d: UserData, endsAt: string)
    ensures Assign(d, [PlanCancelled, PlanEndsAt], [Bool(true), Str(endsAt)])
         == d.(planCancelled := true, planEndsAt := Some(endsAt))
  {
    AssignTwo(d, PlanCancelled, PlanEndsAt, Bool(true), Str(endsAt));
  }

  /** `handleCancelPlan`: cancelled, ending on `endsAt` (a month from the
      day it runs). */
  function CancelPlan(s: Store, endsAt: string, today: string): (r: Store)
    ensures Record(s).None? ==> r == s
    ensures Record(s).Some? ==>
      r == Put(s, Record(s).value.(planCancelled := true, planEndsAt := Some(endsAt)), today)
  {
    WritesTwo(PlanCancelled, PlanEndsAt, Bool(true), Str(endsAt));
    if Record(s).Some? then
      CancelFields(Record(s).value, endsAt);
      WriteRecord(s, [PlanCancelled, PlanEndsAt], [Bool(true), Str(endsAt)], today)
    else
      WriteRecord(s, [PlanCancelled, PlanEndsAt], [Bool(true), Str(endsAt)], today)
  }

  /** Picking a plan after cancelling undoes the cancellation completely:
      the result is the same as picking that plan directly. */
  lemma CancelThenChangePlan(s: Store, endsAt: string, planId: string, today: string)
    ensures ChangePlan(CancelPlan(s, endsAt, today), planId, today) == ChangePlan(s, planId, today)
  {
    if Record(s).Some? {
      var d := Record(s).value;
      var d1 := d.(planCancelled := true, planEndsAt := Some(endsAt));
      var d2 := d.(plan := planId, planCancelled := false, planEndsAt := None);
      assert d1.(plan := planId, planCancelled := false, planEndsAt := None) == d2;
      PutTwice(s, d1, d2, today);
    }
  }

  // ---------------------------------------------------------------------
  // Card

  /** The fields `handleUpdateCard` writes, as a record update. */
  lemma CardFields(d: UserData, last4: string, brand: string)
    ensures Assign(d, [CardLast4, CardBrand], [Str(last4), Str(brand)])
         == d.(cardLast4 := last4, cardBrand := brand)
  {
    AssignTwo(d, CardLast4, CardBrand, Str(last4), Str(brand));
  }

  /** `handleUpdateCard`: the digits typed must be exactly four; then they
      become the card's last four, with the chosen brand. */
  function UpdateCard(s: Store, cardInput: string, brand: string, today: string): (o: Handled)
    ensures o.error.None? <==> |Digits(cardInput)| == 4
    ensures o.error.Some? ==> o == Handled(s, Some(InvalidCardKey))
    ensures o.error.None? && Record(s).None? ==> o.store == s
    ensures o.error.None? && Record(s).Some? ==>
      o.store == Put(s, Record(s).value.(cardLast4 := Digits(cardInput), cardBrand := brand), today)
  {
    var last4 := Digits(cardInput);
    DigitsAreBmp(last4);
    JsLengthOfBmp(last4);
    WritesTwo(CardLast4, CardBrand, Str(last4), Str(brand));
    if JsLength(last4) != 4 then Handled(s, Some(InvalidCardKey))
    else if Record(s).Some? then
      CardFields(Record(s).value, last4, brand);
      Handled(WriteRecord(s, [CardLast4, CardBrand], [Str(last4), Str(brand)], today), None)
    else
      Handled(WriteRecord(s, [CardLast4, CardBrand], [Str(last4), Str(brand)], today), None)
  }

  /** Saving the same card twice is saving it once. */
  lemma UpdateCardIdempotent(s: Store, cardInput: string, brand: string, today: string)
    ensures var o := UpdateCard(s, cardInput, brand, today);
      UpdateCard(o.store, cardInput, brand, today).store == o.store
  {
    var o := UpdateCard(s, cardInput, brand, today);
    if o.error.None? && Record(s).Some? {
      var d1 := Record(s).value.(cardLast4 := Digits(cardInput), cardBrand := brand);
      assert d1.(cardLast4 := Digits(cardInput), cardBrand := brand) == d1;
      PutTwice(s, d1, d1, today);
    }
  }

  // ---------------------------------------------------------------------
  // Email

  /** The update `{ email: e }` is well formed and writes the email. */
  lemma EmailUpdate(d: UserData, e: string)
    ensures var us := [Update("email", Str(e))];
      && WellTyped(us) && DistinctKeys(us)
      && Lookup(us, "email") == Some(Str(e))
      && ApplyUpdates(d, us) == d.(email := e)
  {
    var us := [Update("email", Str(e))];
    assert us == Puts([Email], [Str(e)]);
    ApplyPuts(d, [Email], [Str(e)]);
    AssignOne(d, Email, Str(e));
    LookupAt(us, 0);
  }

  /** When no other account holds the address, the write changes the
      signed-in record's email to the trimmed address and nothing else. */
  lemma EmailWriteFree(s: Store, e: string, today: string)
    requires e != "" && Trimmed(e)
    requires Record(s).Some? && !HeldByOther(s.users, SessionIndex(s).value, Lower(e))
    ensures UpdateUser(s, [Update("email", Str(e))], today) == Put(s, Record(s).value.(email := e), today)
  {
    var us := [Update("email", Str(e))];
    var idx := SessionIndex(s).value;
    EmailUpdate(s.users[idx].data, e);
    TrimOfTrimmed(e);
    assert !EmailClash(s.users, idx, us);
    assert NormalizeEmail(us) == us;
  }

  /** When another account holds the address the write is dropped. */
  lemma EmailWriteClash(s: Store, e: string, today: string)
    requires Trimmed(e)
    requires Record(s).Some? && HeldByOther(s.users, SessionIndex(s).value, Lower(e))
    ensures UpdateUser(s, [Update("email", Str(e))], today) == s
  {
    EmailUpdate(s.users[SessionIndex(s).value].data, e);
    TrimOfTrimmed(e);
    assert EmailClash(s.users, SessionIndex(s).value, [Update("email", Str(e))]);
  }

  /** On a non-blank trimmed address the code as written and the corrected
      write agree, and the write never lets two accounts share an address. */
  lemma EmailWriteAgrees(s: Store, e: string, today: string)
    requires e != "" && Trimmed(e)
    ensures WellTyped([Update("email", Str(e))]) && DistinctKeys([Update("email", Str(e))])
    ensures UpdateUser(s, [Update("email", Str(e))], today)
         == UpdateUserAsWritten(s, [Update("email", Str(e))], today)
    ensures UniqueEmails(s.users) ==> UniqueEmails(UpdateUser(s, [Update("email", Str(e))], today).users)
  {
    var us := [Update("email", Str(e))];
    var d: UserData :| true;
    EmailUpdate(d, e);
    AsWrittenAgreesOnTrimmedEmail(s, us, today);
    if UniqueEmails(s.users) {
      UpdateUserKeepsEmailsUnique(s, us, today);
    }
  }

  /** The write `handleChangeEmail` issues for a non-blank trimmed address:
      the corrected `updateUser`, which on such an address does what the
      code as written does. */
  function WriteEmail(s: Store, e: string, today: string): (r: Store)
    requires e != "" && Trimmed(e)
    ensures r == UpdateUserAsWritten(s, [Update("email", Str(e))], today)
    ensures Record(s).None? ==> r == s
    ensures Record(s).Some? && HeldByOther(s.users, SessionIndex(s).value, Lower(e)) ==> r == s
    ensures Record(s).Some? && !HeldByOther(s.users, SessionIndex(s).value, Lower(e)) ==>
      r == Put(s, Record(s).value.(email := e), today)
    ensures UniqueEmails(s.users) ==> UniqueEmails(r.users)
  {
    EmailWriteAgrees(s, e, today);
    if Record(s).None? then
      UpdateUser(s, [Update("email", Str(e))], today)
    else if HeldByOther(s.users, SessionIndex(s).value, Lower(e)) then
      EmailWriteClash(s, e, today);
      UpdateUser(s, [Update("email", Str(e))], today)
    else
      EmailWriteFree(s, e, today);
      UpdateUser(s, [Update("email", Str(e))], today)
  }

  /** `handleChangeEmail`. `legacyKeys` are the keys of the older
      `netflix_users` object the page still consults: a trimmed address found
      there that is not the session's own is refused. Past both checks the
      write is issued, and the page closes the form without looking at its
      outcome: when another account already holds the address the store
      silently stays as it was. */
  function ChangeEmail(s: Store, newEmail: string, legacyKeys: set<string>, today: string): (o: Handled)
    ensures Trim(newEmail) == "" ==> o == Handled(s, Some(InvalidEmailKey))
    ensures Trim(newEmail) != "" && Trim(newEmail) in legacyKeys
            && (s.session.None? || Trim(newEmail) != s.session.value.email)
            ==> o == Handled(s, Some(EmailExistsKey))
    ensures o.error.None? ==>
      Trim(newEmail) != "" && o.store == WriteEmail(s, Trim(newEmail), today)
    ensures Trim(newEmail) != ""
            && !(Trim(newEmail) in legacyKeys && (s.session.None? || Trim(newEmail) != s.session.value.email))
            ==> o.error.None?
    ensures UniqueEmails(s.users) ==> UniqueEmails(o.store.users)
  {
    var e := Trim(newEmail);
    if e == "" then Handled(s, Some(InvalidEmailKey))
    else if e in legacyKeys && (s.session.None? || e != s.session.value.email) then
      Handled(s, Some(EmailExistsKey))
    else
      Handled(WriteEmail(s, e, today), None)
  }

  // ---------------------------------------------------------------------
  // Phone and two-factor

  /** The field `handleAddPhone` writes, as a record update. */
  lemma PhoneFields(d: UserData, phone: string)
    ensures Assign(d, [Phone], [Str(phone)]) == d.(phone := phone)
  {
    AssignOne(d, Phone, Str(phone));
  }

  /** `handleAddPhone`: a non-blank number, stored trimmed. */
  function AddPhone(s: Store, newPhone: string, today: string): (o: Handled)
    ensures Trim(newPhone) == "" <==> o.error.Some?
    ensures o.error.Some? ==> o == Handled(s, Some(InvalidPhoneKey))
    ensures o.error.None? && Record(s).None? ==> o.store == s
    ensures o.error.None? && Record(s).Some? ==>
      o.store == Put(s, Record(s).value.(phone := Trim(newPhone)), today)
  {
    WritesOne(Phone, Str(Trim(newPhone)));
    if Trim(newPhone) == "" then Handled(s, Some(InvalidPhoneKey))
    else if Record(s).Some? then
      PhoneFields(Record(s).value, Trim(newPhone));
      Handled(WriteRecord(s, [Phone], [Str(Trim(newPhone))], today), None)
    else
      Handled(WriteRecord(s, [Phone], [Str(Trim(newPhone))], today), None)
  }

  /** A number `handleAddPhone` accepts is one the two-factor dialog offers
      as a phone contact. */
  lemma AcceptedPhoneIsContact(newPhone: string)
    requires Trim(newPhone) != ""
    ensures TwoFactor.HasContact(Trim(newPhone))
  {
    TrimIdempotent(newPhone);
  }

  /** The `method` string a channel is stored as. */
  function ChannelName(c: TwoFactor.Channel): (name: string)
    ensures name == "email" <==> c == TwoFactor.ByEmail
    ensures name == "phone" <==> c == TwoFactor.ByPhone
  {
    match c
    case ByEmail => "email"
    case ByPhone => "phone"
  }

  /** The fields `handleEnable2FA` writes, as a record update. */
  lemma EnableFields(d: UserData, name: string, value: string)
    ensures Assign(d, [TwoFA, TwoFAMethod, TwoFAValue], [Bool(true), Str(name), Str(value)])
         == d.(twoFA := true, twoFAMethod := Some(name), twoFAValue := value)
  {
    AssignThree(d, TwoFA, TwoFAMethod, TwoFAValue, Bool(true), Str(name), Str(value));
  }

  /** `handleEnable2FA(data)`: two-factor on, with the confirmed channel and
      contact. */
  function Enable2FA(s: Store, c: TwoFactor.Confirmed, today: string): (r: Store)
    ensures Record(s).None? ==> r == s
    ensures Record(s).Some? ==>
      r == Put(s, Record(s).value.(twoFA := true, twoFAMethod := Some(ChannelName(c.channel)),
                                   twoFAValue := c.value), today)
  {
    var vs := [Bool(true), Str(ChannelName(c.channel)), Str(c.value)];
    WritesThree(TwoFA, TwoFAMethod, TwoFAValue, vs[0], vs[1], vs[2]);
    if Record(s).Some? then
      EnableFields(Record(s).value, ChannelName(c.channel), c.value);
      WriteRecord(s, [TwoFA, TwoFAMethod, TwoFAValue], [vs[0], vs[1], vs[2]], today)
    else
      WriteRecord(s, [TwoFA, TwoFAMethod, TwoFAValue], [vs[0], vs[1], vs[2]], today)
  }

  /** The three two-factor fields cleared. */
  lemma DisableFields(d: UserData)
    ensures Assign(d, [TwoFA, TwoFAMethod, TwoFAValue], [Bool(false), Null, Str("")])
         == d.(twoFA := false, twoFAMethod := None, twoFAValue := "")
  {
    AssignThree(d, TwoFA, TwoFAMethod, TwoFAValue, Bool(false), Null, Str(""));
  }

  /** `handleDisable2FA`: two-factor off, channel and contact cleared. */
  function Disable2FA(s: Store, today: string): (r: Store)
    ensures Record(s).None? ==> r == s
    ensures Record(s).Some? ==>
      r == Put(s, Record(s).value.(twoFA := false, twoFAMethod := None, twoFAValue := ""), today)
  {
    WritesThree(TwoFA, TwoFAMethod, TwoFAValue, Bool(false), Null, Str(""));
    if Record(s).Some? then
      DisableFields(Record(s).value);
      WriteRecord(s, [TwoFA, TwoFAMethod, TwoFAValue], [Bool(false), Null, Str("")], today)
    else
      WriteRecord(s, [TwoFA, TwoFAMethod, TwoFAValue], [Bool(false), Null, Str("")], today)
  }

  /** Turning two-factor on and then off is the same as turning it off: no
      trace of the confirmed channel or contact is left. */
  lemma EnableThenDisable(s: Store, c: TwoFactor.Confirmed, today: string)
    ensures Disable2FA(Enable2FA(s, c, today), today) == Disable2FA(s, today)
  {
    if Record(s).Some? {
      var d := Record(s).value;
      var d1 := d.(twoFA := true, twoFAMethod := Some(ChannelName(c.channel)), twoFAValue := c.value);
      var d2 := d.(twoFA := false, twoFAMethod := None, twoFAValue := "");
      assert d1.(twoFA := false, twoFAMethod := None, twoFAValue := "") == d2;
      PutTwice(s, d1, d2, today);
    }
  }

  /** Which dialog the two-factor button opens. */
  datatype Dialog = EnableDialog | DisableDialog

  /** `handle2FAClick`: `user?.twoFA ?? false` decides. */
  function TwoFAClick(session: Option<UserData>): (d: Dialog)
    ensures d == DisableDialog <==> session.Some? && session.value.twoFA
  {
    if session.Some? && session.value.twoFA then DisableDialog else EnableDialog
  }

  /** The disable dialog's confirmation with the password verdict awaited,
      followed by `handleDisable2FA`. */
  function DisableByPassword(s: Store, m: TwoFactor.Disable, today: string): (r: Store)
    requires m.proof == TwoFactor.ByPassword
    ensures r != s ==> VerifyPassword(s, m.password)
    ensures !VerifyPassword(s, m.password) ==> r == s
    ensures VerifyPassword(s, m.password) ==> r == Disable2FA(s, today)
  {
    if TwoFactor.DisableSubmit(m, VerifyPassword(s, m.password)).confirmed then Disable2FA(s, today) else s
  }

  /** The same, as written: the unawaited promise lets any password through. */
  function DisableByPasswordAsWritten(s: Store, m: TwoFactor.Disable, today: string): (r: Store)
    requires m.proof == TwoFactor.ByPassword
    ensures r == Disable2FA(s, today)
  {
    if TwoFactor.DisableSubmitAsWritten(m, VerifyPassword(s, m.password)).confirmed then Disable2FA(s, today) else s
  }

  // ---------------------------------------------------------------------
  // Profile rename

  /** `handleSaveProfile`: a profile is being edited (its name is truthy) and
      the new name is not blank; then the first occurrence is renamed to the
      trimmed name. */
  function SaveProfile(s: Store, editing: Option<string>, editValue: string, today: string): (r: Store)
    ensures editing.None? || editing.value == "" || Trim(editValue) == "" ==> r == s
    ensures editing.Some? && editing.value != "" && Trim(editValue) != "" && s.session.Some? ==>
      ProfilesWritten(s, r, ReplaceFirst(s.session.value.profiles, editing.value, Trim(editValue)), today)
  {
    if editing.Some? && editing.value != "" && Trim(editValue) != "" then
      UpdateProfile(s, editing.value, Trim(editValue), today)
    else s
  }

  // ---------------------------------------------------------------------
  // The change-email gate

  /** Where the change-email flow stands: nothing open, the code check open,
      or the email form open. */
  datatype Gate = Closed | Checking(check: TwoFactor.Check) | EmailForm

  datatype GateEvent =
    | ClickChangeEmail(r: real)
    | TypeCode(text: string)
    | ResendCode(r: real)
    | SubmitCode
    | Dismiss

  predicate GateEventOk(e: GateEvent) {
    match e
    case ClickChangeEmail(r) => 0.0 <= r < 1.0
    case ResendCode(r) => 0.0 <= r < 1.0
    case _ => true
  }

  /** The button, the check dialog and the form are each shown only while
      two-factor is on; the form opens only when the check confirms. */
  function GateStep(g: Gate, e: GateEvent, twoFA: bool): (r: Gate)
    requires GateEventOk(e)
    ensures r.EmailForm? && !g.EmailForm? ==>
      twoFA && g.Checking? && e == SubmitCode && g.check.code == g.check.sentCode
    ensures r.Checking? ==> IsCheck(r) || (g.Checking? && r.check.sentCode == g.check.sentCode)
    ensures twoFA && g.Checking? && e == SubmitCode && g.check.code == g.check.sentCode ==> r.EmailForm?
  {
    if !twoFA then g
    else
      match e
      case ClickChangeEmail(r) => if g.Closed? then Checking(TwoFactor.OpenCheck(r)) else g
      case TypeCode(v) => if g.Checking? then Checking(TwoFactor.CheckType(g.check, v)) else g
      case ResendCode(r) => if g.Checking? then Checking(TwoFactor.CheckResend(g.check, r)) else g
      case SubmitCode =>
        if g.Checking? then
          var o := TwoFactor.CheckSubmit(g.check);
          if o.confirmed then EmailForm else Checking(o.modal)
        else g
      case Dismiss => Closed
  }

  /** A check dialog whose sent code is a full six-digit code. */
  predicate IsCheck(g: Gate) {
    g.Checking? && TwoFactor.IsCode(g.check.sentCode)
  }

  predicate GateConsistent(g: Gate) {
    g.Checking? ==> IsCheck(g)
  }

  function GateRun(g: Gate, es: seq<GateEvent>, twoFA: bool): Gate
    requires forall i :: 0 <= i < |es| ==> GateEventOk(es[i])
    decreases |es|
  {
    if es == [] then g else GateRun(GateStep(g, es[0], twoFA), es[1..], twoFA)
  }

  /** Starting closed, the email form can be reached only with two-factor on,
      and then only by typing back a full six-digit code. */
  lemma {:induction false} GateRunKeepsConsistent(g: Gate, es: seq<GateEvent>, twoFA: bool)
    requires GateConsistent(g)
    requires forall i :: 0 <= i < |es| ==> GateEventOk(es[i])
    ensures GateConsistent(GateRun(g, es, twoFA))
    ensures !twoFA ==> GateRun(g, es, twoFA) == g
    decreases |es|
  {
    if es != [] {
      GateRunKeepsConsistent(GateStep(g, es[0], twoFA), es[1..], twoFA);
    }
  }

  /** The step into the form always consumes a confirmed six-digit code. */
  lemma FormNeedsFullCode(g: Gate, e: GateEvent, twoFA: bool)
    requires GateConsistent(g) && GateEventOk(e)
    requires GateStep(g, e, twoFA).EmailForm? && !g.EmailForm?
    ensures twoFA && g.Checking? && TwoFactor.IsCode(g.check.code)
  {
  }
}
