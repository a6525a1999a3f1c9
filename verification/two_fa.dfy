/** The three two-factor dialogs: turning two-factor on (send a code to the
    account's email or phone, then type it back), turning it off (a code sent
    to the stored contact, or the account password), and the code check that
    guards changing the email. Delivering the code is outside the model; the
    code a dialog generates is what the person is assumed to read. */
module TwoFactor {
  import opened Optional
  import opened Strings
  import opened Codes

  /** Where a code goes: the `method` strings "email" and "phone". */
  datatype Channel = ByEmail | ByPhone

  /** `!!value?.trim()`: a contact that is there and not blank. */
  predicate HasContact(v: string) {
    Trim(v) != ""
  }

  const InvalidCodeMessage := "Invalid code. Please try again."
  const SelectPhoneMessage := "Select phone to receive the code."
  const AddPhoneMessage := "Add a phone number in Account settings."
  const IncorrectPasswordMessage := "Incorrect password."

  /** The typed code: the first six digits typed, in order. */
  function CodeBox(v: string): (r: string)
    ensures AllDigits(r) && |r| <= 6
    ensures |r| == if |Digits(v)| < 6 then |Digits(v)| else 6
    ensures r == Digits(v)[..|r|]
  {
    DigitField(v, 6)
  }

  /** A code as `generateCode` makes them: six digits. */
  predicate IsCode(c: string) {
    |c| == 6 && AllDigits(c)
  }

  /** Typing a six-digit code into the box gives exactly that code. */
  lemma TypedCode(c: string)
    requires IsCode(c)
    ensures CodeBox(c) == c
  {
    DigitFieldKeeps(c, 6);
  }

  // ---------------------------------------------------------------------
  // Enable2FAModal

  /** `defaultMethod`: email when there is one, else phone when there is one,
      else email. */
  function DefaultChannel(email: string, phone: string): (c: Channel)
    ensures c == ByPhone <==> !HasContact(email) && HasContact(phone)
  {
    if HasContact(email) then ByEmail else if HasContact(phone) then ByPhone else ByEmail
  }

  datatype Enable = Enable(email: string, phone: string, step: int, channel: Channel,
                           code: string, entered: string, error: string)

  /** The contact the chosen channel points at, trimmed (`targetValue`). */
  function Target(m: Enable): string {
    Trim(if m.channel == ByEmail then m.email else m.phone)
  }

  function OpenEnable(email: string, phone: string): (m: Enable)
    ensures m.step == 1 && m.code == "" && m.entered == "" && m.error == ""
    ensures m.channel == DefaultChannel(email, phone)
    ensures Target(m) == "" <==> !HasContact(email) && !HasContact(phone)
  {
    Enable(email, phone, 1, DefaultChannel(email, phone), "", "", "")
  }

  /** The radio buttons: a channel's button exists only when its contact does,
      and only on the first step. */
  function ChooseChannel(m: Enable, c: Channel): (r: Enable)
    ensures r.channel != m.channel ==> m.step == 1 && HasContact(if c == ByEmail then m.email else m.phone)
    ensures r == m.(channel := r.channel)
  {
    if m.step == 1 && HasContact(if c == ByEmail then m.email else m.phone) then m.(channel := c) else m
  }

  /** `handleSendCode`: with no contact behind the channel, an error and a
      switch to whichever channel has one (phone winning); otherwise a fresh
      code and the second step. */
  function SendCode(m: Enable, r: real): (o: Enable)
    requires 0.0 <= r < 1.0
    ensures m.step != 1 ==> o == m
    ensures m.step == 1 && Target(m) != "" ==>
      o == m.(step := 2, code := o.code, error := "") && IsCode(o.code)
    ensures m.step == 1 && Target(m) == "" ==>
      && o.step == 1 && o.code == m.code && o.error != ""
      && (HasContact(m.email) || HasContact(m.phone) ==> Target(o) != "")
  {
    if m.step != 1 then m
    else if Target(m) == "" then
      var hasEmail, hasPhone := HasContact(m.email), HasContact(m.phone);
      m.(error := if hasPhone then SelectPhoneMessage else AddPhoneMessage,
         channel := if hasPhone then ByPhone else if hasEmail then ByEmail else m.channel)
    else
      m.(step := 2, code := GenerateCode(r), error := "")
  }

  /** The code box of the second step. */
  function EnterCode(m: Enable, v: string): (r: Enable)
    ensures r == m.(entered := r.entered)
    ensures m.step == 2 ==> r.entered == CodeBox(v)
  {
    if m.step == 2 then m.(entered := CodeBox(v)) else m
  }

  /** `handleResend`: a fresh code; what was typed is cleared. */
  function Resend(m: Enable, r: real): (o: Enable)
    requires 0.0 <= r < 1.0
    ensures m.step == 2 ==> o == m.(code := o.code, entered := "", error := "") && IsCode(o.code)
    ensures m.step != 2 ==> o == m
  {
    if m.step == 2 then m.(code := GenerateCode(r), entered := "", error := "") else m
  }

  /** The Back button of the second step. */
  function BackToChannel(m: Enable): (r: Enable)
    ensures m.step == 2 ==> r.step == 1
    ensures m.step != 2 ==> r == m
    ensures r == m.(step := r.step)
  {
    if m.step == 2 then m.(step := 1) else m
  }

  /** Back after a successful send returns to the channel choice with the
      same channel; only the code sent and the cleared error remain. */
  lemma SendThenBack(m: Enable, r: real)
    requires 0.0 <= r < 1.0 && m.step == 1 && Target(m) != ""
    ensures var o := SendCode(m, r);
      BackToChannel(o) == m.(code := o.code, error := "")
  {
  }

  /** What `onSuccess` receives: the channel and the trimmed contact. */
  datatype Confirmed = Confirmed(channel: Channel, value: string)

  datatype Verified = Verified(modal: Enable, confirmed: Option<Confirmed>)

  /** `handleVerifyCode`: the typed code must equal the one sent. */
  function VerifyCode(m: Enable): (o: Verified)
    ensures o.confirmed.Some? <==> m.step == 2 && m.entered == m.code
    ensures o.confirmed.Some? ==> o.confirmed.value == Confirmed(m.channel, Target(m))
    ensures m.step == 2 && m.entered != m.code ==> o.modal == m.(error := InvalidCodeMessage)
  {
    if m.step != 2 then Verified(m, None)
    else if m.entered != m.code then Verified(m.(error := InvalidCodeMessage), None)
    else Verified(m.(error := ""), Some(Confirmed(m.channel, Target(m))))
  }

  /** What holds throughout the dialog: if the account has any contact the
      chosen channel has one, and on the second step a code has been sent to
      a non-blank contact. */
  predicate EnableConsistent(m: Enable) {
    && (m.step == 1 || m.step == 2)
    && (HasContact(m.email) || HasContact(m.phone) ==> Target(m) != "")
    && (m.step == 2 ==> Target(m) != "" && IsCode(m.code))
  }

  datatype EnableEvent =
    | Choose(channel: Channel)
    | Send(r: real)
    | Type(text: string)
    | ResendCode(r: real)
    | Back

  predicate EnableEventOk(e: EnableEvent) {
    match e
    case Send(r) => 0.0 <= r < 1.0
    case ResendCode(r) => 0.0 <= r < 1.0
    case _ => true
  }

  function EnableStep(m: Enable, e: EnableEvent): Enable
    requires EnableEventOk(e)
  {
    match e
    case Choose(c) => ChooseChannel(m, c)
    case Send(r) => SendCode(m, r)
    case Type(v) => EnterCode(m, v)
    case ResendCode(r) => Resend(m, r)
    case Back => BackToChannel(m)
  }

  lemma EnableStepKeepsConsistent(m: Enable, e: EnableEvent)
    requires EnableConsistent(m) && EnableEventOk(e)
    ensures EnableConsistent(EnableStep(m, e))
  {
  }

  function EnableRun(m: Enable, es: seq<EnableEvent>): Enable
    requires forall i :: 0 <= i < |es| ==> EnableEventOk(es[i])
    decreases |es|
  {
    if es == [] then m else EnableRun(EnableStep(m, es[0]), es[1..])
  }

  lemma {:induction false} EnableRunKeepsConsistent(m: Enable, es: seq<EnableEvent>)
    requires EnableConsistent(m)
    requires forall i :: 0 <= i < |es| ==> EnableEventOk(es[i])
    ensures EnableConsistent(EnableRun(m, es))
    decreases |es|
  {
    if es != [] {
      EnableStepKeepsConsistent(m, es[0]);
      EnableRunKeepsConsistent(EnableStep(m, es[0]), es[1..]);
    }
  }

  /** However the dialog is driven, a confirmation names a non-blank,
      trimmed contact and follows a six-digit code typed back exactly. */
  lemma ConfirmedContactIsReal(email: string, phone: string, es: seq<EnableEvent>)
    requires forall i :: 0 <= i < |es| ==> EnableEventOk(es[i])
    ensures var m := EnableRun(OpenEnable(email, phone), es);
      VerifyCode(m).confirmed.Some? ==>
        && VerifyCode(m).confirmed.value.value != ""
        && Trimmed(VerifyCode(m).confirmed.value.value)
        && IsCode(m.entered)
  {
    EnableRunKeepsConsistent(OpenEnable(email, phone), es);
    var m := EnableRun(OpenEnable(email, phone), es);
    var t := if m.channel == ByEmail then m.email else m.phone;
    assert Target(m) == Trim(t);
  }

  /** Sending fails from the opened dialog only when the account has neither
      an email nor a phone. */
  lemma SendFailsOnlyWithoutContact(email: string, phone: string, r: real)
    requires 0.0 <= r < 1.0
    ensures SendCode(OpenEnable(email, phone), r).step == 2 <==> HasContact(email) || HasContact(phone)
  {
  }

  /** After a resend only the new code is accepted. */
  lemma ResendReplacesCode(m: Enable, r: real, typed: string)
    requires 0.0 <= r < 1.0 && m.step == 2
    ensures var m2 := EnterCode(Resend(m, r), typed);
      VerifyCode(m2).confirmed.Some? <==> CodeBox(typed) == GenerateCode(r)
  {
  }

  // ---------------------------------------------------------------------
  // Disable2FAModal

  datatype Proof = ByCode | ByPassword

  datatype Disable = Disable(value: string, proof: Proof, code: string, sentCode: string,
                             password: string, error: string)

  /** On opening, a code is sent only when a contact is stored; otherwise the
      sent code stays empty. */
  function OpenDisable(value: string, r: real): (m: Disable)
    requires 0.0 <= r < 1.0
    ensures m.proof == ByCode && m.code == "" && m.password == "" && m.error == ""
    ensures value != "" ==> IsCode(m.sentCode)
    ensures value == "" ==> m.sentCode == ""
  {
    Disable(value, ByCode, "", if value != "" then GenerateCode(r) else "", "", "")
  }

  /** `sendCodeToContact` behind the resend button: a fresh code, the box
      cleared. */
  function DisableResend(m: Disable, r: real): (o: Disable)
    requires 0.0 <= r < 1.0
    ensures o == m.(sentCode := o.sentCode, code := "", error := "") && IsCode(o.sentCode)
  {
    m.(sentCode := GenerateCode(r), code := "", error := "")
  }

  /** What a call handed to `!` evaluates to. An `async` function returns a
      promise, and every promise object is truthy, whatever it settles to. */
  datatype Answer = Plain(b: bool) | Promise(settlesTo: bool)

  predicate Truthy(a: Answer) {
    match a
    case Plain(b) => b
    case Promise(_) => true
  }

  datatype Decision = Decision(modal: Disable, confirmed: bool)

  /** `handleSubmit` given what `onVerifyPassword(password)` evaluates to: by
      code the typed code must equal the sent one; by password the answer
      must be truthy. */
  function DisableSubmitWith(m: Disable, answer: Answer): (o: Decision)
    ensures m.proof == ByCode ==> (o.confirmed <==> m.code == m.sentCode)
    ensures m.proof == ByPassword ==> (o.confirmed <==> Truthy(answer))
    ensures !o.confirmed ==> o.modal.error != ""
  {
    match m.proof
    case ByCode =>
      if m.code != m.sentCode then Decision(m.(error := InvalidCodeMessage), false)
      else Decision(m.(error := ""), true)
    case ByPassword =>
      if !Truthy(answer) then Decision(m.(error := IncorrectPasswordMessage), false)
      else Decision(m.(error := ""), true)
  }

  /** The handler as written: `verifyPassword` is `async`, so the check sees a
      promise. */
  function DisableSubmitAsWritten(m: Disable, passwordOk: bool): (o: Decision)
    ensures m.proof == ByPassword ==> o.confirmed
  {
    DisableSubmitWith(m, Promise(passwordOk))
  }

  /** As written, any password turns two-factor off: a wrong one included. */
  lemma AnyPasswordDisables(value: string, r: real)
    requires 0.0 <= r < 1.0
    ensures var m := OpenDisable(value, r).(proof := ByPassword, password := "wrong");
      DisableSubmitAsWritten(m, false).confirmed
  {
  }

  /** The handler with the verdict awaited before it is tested. */
  function DisableSubmit(m: Disable, passwordOk: bool): (o: Decision)
    ensures m.proof == ByPassword ==> (o.confirmed <==> passwordOk)
    ensures m.proof == ByCode ==> (o.confirmed <==> m.code == m.sentCode)
  {
    DisableSubmitWith(m, Plain(passwordOk))
  }

  /** The two agree whenever the password is right, and on codes always. */
  lemma DisableSubmitAgreement(m: Disable, passwordOk: bool)
    requires m.proof == ByCode || passwordOk
    ensures DisableSubmit(m, passwordOk) == DisableSubmitAsWritten(m, passwordOk)
  {
  }

  /** With no stored contact nothing is sent, and the empty code box matches
      the empty sent code. */
  lemma EmptyCodeWithoutContact(r: real)
    requires 0.0 <= r < 1.0
    ensures DisableSubmit(OpenDisable("", r), false).confirmed
  {
  }

  /** With a stored contact, the code typed must be the six-digit one sent. */
  lemma CodeNeededWithContact(value: string, r: real, typed: string, ok: bool)
    requires 0.0 <= r < 1.0 && value != ""
    ensures var m := OpenDisable(value, r).(code := CodeBox(typed));
      DisableSubmit(m, ok).confirmed <==> CodeBox(typed) == m.sentCode
  {
  }

  // ---------------------------------------------------------------------
  // Verify2FACodeModal

  datatype Check = Check(code: string, sentCode: string, error: string)

  /** A code is sent as soon as the dialog opens, whatever the contact. */
  function OpenCheck(r: real): (m: Check)
    requires 0.0 <= r < 1.0
    ensures IsCode(m.sentCode) && m.code == "" && m.error == ""
  {
    Check("", GenerateCode(r), "")
  }

  function CheckResend(m: Check, r: real): (o: Check)
    requires 0.0 <= r < 1.0
    ensures IsCode(o.sentCode) && o.code == "" && o.error == ""
  {
    m.(sentCode := GenerateCode(r), code := "", error := "")
  }

  function CheckType(m: Check, v: string): (o: Check)
    ensures o == m.(code := o.code)
    ensures AllDigits(o.code) && |o.code| <= 6
    ensures |o.code| == if |Digits(v)| < 6 then |Digits(v)| else 6
    ensures o.code == Digits(v)[..|o.code|]
  {
    m.(code := CodeBox(v))
  }

  datatype Checked = Checked(modal: Check, confirmed: bool)

  /** `handleSubmit`: the typed code must equal the sent one. */
  function CheckSubmit(m: Check): (o: Checked)
    ensures o.confirmed <==> m.code == m.sentCode
    ensures !o.confirmed ==> o.modal == m.(error := InvalidCodeMessage)
  {
    if m.code != m.sentCode then Checked(m.(error := InvalidCodeMessage), false)
    else Checked(m.(error := ""), true)
  }

  /** Because this dialog always sends, a confirmation always follows a full
      six-digit code: the empty box never passes. */
  lemma CheckNeedsFullCode(m: Check)
    requires IsCode(m.sentCode)
    ensures CheckSubmit(m).confirmed ==> IsCode(m.code)
    ensures !CheckSubmit(m.(code := "")).confirmed
  {
  }
}
