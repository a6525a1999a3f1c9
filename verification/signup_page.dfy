/** The four-step sign-up wizard: email, then password and name, then plan,
    then payment, whose submission calls `signup`. The input filters that
    format the card number, expiry and security code as they are typed are
    modelled with it. */
module SignupWizard {
  import opened Optional
  import opened Strings
  import AuthStore

  // ---------------------------------------------------------------------
  // validateEmail

  /** The `[^\s@]` class. */
  predicate Plain(c: char) {
    !IsSpace(c) && c != '@'
  }

  predicate AllPlain(s: string) {
    forall i :: 0 <= i < |s| ==> Plain(s[i])
  }

  /** A reading of `/^[^\s@]+@[^\s@]+\.[^\s@]+$/`: exactly one `@`, not first;
      some `.` after it with at least one character on either side; no white
      space anywhere. */
  ghost predicate MatchesEmailPattern(e: string) {
    exists a, d :: 0 < a && a + 1 < d < |e| - 1 && e[a] == '@' && e[d] == '.'
      && forall i :: 0 <= i < |e| && i != a ==> Plain(e[i])
  }

  /** `s.indexOf(c)`, with `|s|` standing for -1. */
  function IndexOf(s: string, c: char): (r: nat)
    ensures r <= |s|
    ensures r < |s| ==> s[r] == c
    ensures forall i :: 0 <= i < r ==> s[i] != c
  {
    if s == [] then 0
    else if s[0] == c then 0
    else 1 + IndexOf(s[1..], c)
  }

  /** `validateEmail(e)`, computed by splitting at the first `@`. */
  function ValidateEmail(e: string): bool {
    var a := IndexOf(e, '@');
    && 0 < a < |e|
    && AllPlain(e[..a])
    && var t := e[a + 1..];
       AllPlain(t) && |t| >= 3 && '.' in t[1..|t| - 1]
  }

  /** The split at the first `@` accepts exactly the strings the regular
      expression matches. */
  lemma ValidateEmailMatchesPattern(e: string)
    ensures ValidateEmail(e) <==> MatchesEmailPattern(e)
  {
    var a := IndexOf(e, '@');
    if ValidateEmail(e) {
      var t := e[a + 1..];
      var m := t[1..|t| - 1];
      var j :| 0 <= j < |m| && m[j] == '.';
      var d := a + 2 + j;
      assert e[d] == m[j];
      forall i | 0 <= i < |e| && i != a ensures Plain(e[i]) {
        if i < a {
          assert e[i] == e[..a][i];
        } else {
          assert e[i] == t[i - a - 1];
        }
      }
    }
    if MatchesEmailPattern(e) {
      var a0, d0 :| 0 < a0 && a0 + 1 < d0 < |e| - 1 && e[a0] == '@' && e[d0] == '.'
                    && forall i :: 0 <= i < |e| && i != a0 ==> Plain(e[i]);
      assert a == a0;
      var t := e[a + 1..];
      forall i | 0 <= i < a ensures Plain(e[..a][i]) {
        assert e[..a][i] == e[i];
      }
      forall i | 0 <= i < |t| ensures Plain(t[i]) {
        assert t[i] == e[a + 1 + i];
      }
      assert t[1..|t| - 1][d0 - a - 2] == '.';
    }
  }

  /** `validatePassword(p)`: between 4 and 60 UTF-16 code units. */
  function ValidatePassword(p: string): (ok: bool)
    ensures ok ==> 2 <= |p| <= 60
    ensures 4 <= |p| <= 30 ==> ok
  {
    4 <= JsLength(p) <= 60
  }

  /** For passwords without astral characters the bound is in characters. */
  lemma PasswordRuleOnBmp(p: string)
    requires AllBmp(p)
    ensures ValidatePassword(p) <==> 4 <= |p| <= 60
  {
    JsLengthOfBmp(p);
  }

  // ---------------------------------------------------------------------
  // formatCardNumber

  /** `d.replace(/(\d{4})(?=\d)/g, "$1 ")` on a digit string: a space after
      every complete group of four that is followed by another digit. */
  function GroupDigits(d: string): string
    decreases |d|
  {
    if |d| <= 4 then d else d[..4] + " " + GroupDigits(d[4..])
  }

  /** Grouped digits: a space at every fifth position and digits elsewhere,
      with no trailing space. */
  lemma {:induction false} GroupShape(d: string)
    requires AllDigits(d)
    ensures var r := GroupDigits(d);
      && |r| == (if d == [] then 0 else |d| + (|d| - 1) / 4)
      && forall i :: 0 <= i < |r| ==> (r[i] == ' ' <==> i % 5 == 4) && (i % 5 != 4 ==> IsDigit(r[i]))
    decreases |d|
  {
    if |d| > 4 {
      var rest := GroupDigits(d[4..]);
      GroupShape(d[4..]);
      var r := GroupDigits(d);
      assert r == d[..4] + " " + rest;
      forall i | 0 <= i < |r| ensures (r[i] == ' ' <==> i % 5 == 4) && (i % 5 != 4 ==> IsDigit(r[i])) {
        if i < 4 {
          assert r[i] == d[i];
        } else if i > 4 {
          assert r[i] == rest[i - 5];
          assert (i - 5) % 5 == i % 5;
        }
      }
    }
  }

  /** Removing the separators, as either filter does, gives the digits back. */
  lemma {:induction false} GroupRoundTrip(d: string)
    requires AllDigits(d)
    ensures Digits(GroupDigits(d)) == d
    ensures StripSpaces(GroupDigits(d)) == d
    decreases |d|
  {
    if |d| <= 4 {
      DigitsOfDigits(d);
      StripSpacesOfDigits(d);
    } else {
      GroupRoundTrip(d[4..]);
      DigitsAppend(d[..4] + " ", GroupDigits(d[4..]));
      DigitsAppend(d[..4], " ");
      StripSpacesAppend(d[..4] + " ", GroupDigits(d[4..]));
      StripSpacesAppend(d[..4], " ");
      DigitsOfDigits(d[..4]);
      StripSpacesOfDigits(d[..4]);
      assert Digits(" ") == [] && StripSpaces(" ") == [];
      assert d == d[..4] + d[4..];
    }
  }

  /** Cutting the grouped string just before the k-th separator is the
      grouping of the first 4k digits. */
  lemma {:induction false} TakeGrouped(d: string, k: nat)
    requires k >= 1
    ensures Take(GroupDigits(d), 5 * k - 1) == GroupDigits(Take(d, 4 * k))
    decreases k
  {
    if |d| <= 4 * k {
      GroupLengthBound(d, k);
      assert Take(d, 4 * k) == d;
      assert Take(GroupDigits(d), 5 * k - 1) == GroupDigits(d);
    } else if k == 1 {
      assert Take(d, 4) == d[..4];
    } else {
      TakeGrouped(d[4..], k - 1);
      var g := GroupDigits(d[4..]);
      assert GroupDigits(d) == d[..4] + " " + g;
      assert Take(d, 4 * k)[4..] == Take(d[4..], 4 * (k - 1));
      assert Take(d, 4 * k)[..4] == d[..4];
      assert Take(d[..4] + " " + g, 5 * k - 1) == d[..4] + " " + Take(g, 5 * (k - 1) - 1);
    }
  }

  /** At most 4k digits group into at most 5k - 1 characters. */
  lemma {:induction false} GroupLengthBound(d: string, k: nat)
    requires k >= 1 && |d| <= 4 * k
    ensures |GroupDigits(d)| <= 5 * k - 1
    decreases k
  {
    if |d| > 4 {
      GroupLengthBound(d[4..], k - 1);
    }
  }

  /** `formatCardNumber(v)`: the digits of `v`, grouped by four, cut to 19
      characters — that is, the first sixteen digits, grouped. */
  function FormatCardNumber(v: string): (r: string)
    ensures r == GroupDigits(Take(Digits(v), 16))
    ensures |r| <= 19
  {
    TakeGrouped(Digits(v), 4);
    Take(GroupDigits(Digits(v)), 19)
  }

  /** The card field holds at most sixteen digits, grouped, and re-formatting
      it changes nothing. */
  lemma CardFormatIdempotent(v: string)
    ensures Digits(FormatCardNumber(v)) == Take(Digits(v), 16)
    ensures FormatCardNumber(FormatCardNumber(v)) == FormatCardNumber(v)
  {
    var d := Take(Digits(v), 16);
    GroupRoundTrip(d);
    assert Take(d, 16) == d;
  }

  // ---------------------------------------------------------------------
  // formatExpiry

  /** `formatExpiry(v)`: with two digits or more, the first two, a slash and
      the next up to two; otherwise the digits as they are. */
  function FormatExpiry(v: string): (r: string)
    ensures |r| <= 5
    ensures Digits(r) == Take(Digits(v), 4)
    ensures |Digits(v)| >= 2 ==> |r| == |Take(Digits(v), 4)| + 1 && r[2] == '/'
    ensures |Digits(v)| < 2 ==> r == Digits(v)
  {
    var clean := Digits(v);
    if |clean| >= 2 then
      var r := clean[..2] + "/" + Take(clean[2..], 2);
      DigitsAppend(clean[..2] + "/", Take(clean[2..], 2));
      DigitsAppend(clean[..2], "/");
      DigitsOfDigits(clean[..2]);
      DigitsOfDigits(Take(clean[2..], 2));
      assert Digits("/") == [];
      assert clean[..2] + Take(clean[2..], 2) == Take(clean, 4);
      r
    else
      DigitsOfDigits(clean);
      clean
  }

  lemma ExpiryFormatIdempotent(v: string)
    ensures FormatExpiry(FormatExpiry(v)) == FormatExpiry(v)
  {
    var r := FormatExpiry(v);
    var clean := Digits(v);
    if |clean| >= 2 {
      assert Take(Digits(r), 2) == clean[..2];
      assert Take(Digits(r)[2..], 2) == Take(clean[2..], 2);
    } else {
      DigitsOfDigits(clean);
    }
  }

  // ---------------------------------------------------------------------
  // The payment checks of handlePaymentSubmit

  datatype Payment = Payment(cardNumber: string, expiry: string, cvc: string, zip: string)

  /** What the form can complain about: the message keys `errorInvalidEmail`,
      `errorPassword`, `errorCard`, `errorExpiry`, `errorCvc`, `errorZip`, or
      the error text `signup` returned. */
  datatype Problem = InvalidEmail | BadPassword | BadCard | BadExpiry | BadCvc | BadZip
                   | SignupRefused(message: string)

  predicate CardOk(card: string) {
    JsLength(StripSpaces(card)) >= 13
  }

  predicate ExpiryOk(expiry: string) {
    expiry != [] && JsLength(expiry) >= 4
  }

  predicate CvcOk(cvc: string) {
    JsLength(cvc) >= 3
  }

  predicate ZipOk(zip: string) {
    JsLength(zip) >= 3
  }

  /** The checks run card, expiry, security code, zip, in that order, and the
      first that fails is the one reported. */
  function PaymentProblem(p: Payment): (r: Option<Problem>)
    ensures r.None? <==> CardOk(p.cardNumber) && ExpiryOk(p.expiry) && CvcOk(p.cvc) && ZipOk(p.zip)
    ensures r == Some(BadCard) <==> !CardOk(p.cardNumber)
    ensures r == Some(BadExpiry) <==> CardOk(p.cardNumber) && !ExpiryOk(p.expiry)
    ensures r == Some(BadCvc) <==> CardOk(p.cardNumber) && ExpiryOk(p.expiry) && !CvcOk(p.cvc)
    ensures r == Some(BadZip) <==>
      CardOk(p.cardNumber) && ExpiryOk(p.expiry) && CvcOk(p.cvc) && !ZipOk(p.zip)
  {
    if !CardOk(p.cardNumber) then Some(BadCard)
    else if !ExpiryOk(p.expiry) then Some(BadExpiry)
    else if !CvcOk(p.cvc) then Some(BadCvc)
    else if !ZipOk(p.zip) then Some(BadZip)
    else None
  }

  /** A card number typed through the filter passes the card check exactly
      when at least thirteen digits were typed. */
  lemma FormattedCardCheck(v: string)
    ensures CardOk(FormatCardNumber(v)) <==> |Digits(v)| >= 13
  {
    var d := Take(Digits(v), 16);
    GroupRoundTrip(d);
    JsLengthOfBmp(d);
  }

  /** An expiry typed through the filter passes its check exactly when at
      least three digits were typed, so a one-digit year such as "12/3" is
      accepted. */
  lemma FormattedExpiryCheck(v: string)
    ensures ExpiryOk(FormatExpiry(v)) <==> |Digits(v)| >= 3
  {
    var r := FormatExpiry(v);
    forall i | 0 <= i < |r| ensures r[i] as int <= 0xFFFF {
      if |Digits(v)| >= 2 && i != 2 {
        assert r[i] == (Digits(v)[..2] + "/" + Take(Digits(v)[2..], 2))[i];
      }
    }
    JsLengthOfBmp(r);
  }

  lemma ShortYearAccepted()
    ensures FormatExpiry("123") == "12/3" && ExpiryOk("12/3")
  {
    assert Digits("123") == "123";
    JsLengthOfBmp("12/3");
  }

  // ---------------------------------------------------------------------
  // The wizard

  datatype Wizard = Wizard(step: int, email: string, password: string, name: string,
                           planId: string, payment: Payment, error: Option<Problem>,
                           finished: bool)

  /** The wizard as the page opens it. */
  const Start := Wizard(1, "", "", "", "standard", Payment("", "", "", ""), None, false)

  /** What the person does. Each input exists only on its own step, and so do
      the step's submit button and, from step two on, the back link. */
  datatype Event =
    | EditEmail(text: string)
    | EditPassword(text: string)
    | EditName(text: string)
    | ChoosePlan(id: string)
    | EditCard(text: string)
    | EditExpiry(text: string)
    | EditCvc(text: string)
    | EditZip(text: string)
    | EmailNext
    | PasswordNext
    | PlanNext
    | Back

  /** The step handlers and input filters. An event whose control is not on
      the current step changes nothing. */
  function Apply(w: Wizard, e: Event): (r: Wizard)
    ensures r.finished == w.finished
    ensures r.planId != w.planId ==> w.step == 3
    ensures e == EmailNext && w.step == 1 ==>
      if ValidateEmail(Trim(w.email)) then r == w.(step := 2, error := None)
      else r == w.(error := Some(InvalidEmail))
    ensures e == PasswordNext && w.step == 2 ==>
      if ValidatePassword(w.password) then r == w.(step := 3, error := None)
      else r == w.(error := Some(BadPassword))
    ensures e == Back && w.step > 1 ==> r.step == w.step - 1
  {
    match e
    case EditEmail(v) => if w.step == 1 then w.(email := v) else w
    case EditPassword(v) => if w.step == 2 then w.(password := v) else w
    case EditName(v) => if w.step == 2 then w.(name := v) else w
    case ChoosePlan(id) => if w.step == 3 then w.(planId := id) else w
    case EditCard(v) =>
      if w.step == 4 then w.(payment := w.payment.(cardNumber := FormatCardNumber(v))) else w
    case EditExpiry(v) =>
      if w.step == 4 then w.(payment := w.payment.(expiry := FormatExpiry(v))) else w
    case EditCvc(v) => if w.step == 4 then w.(payment := w.payment.(cvc := DigitField(v, 4))) else w
    case EditZip(v) => if w.step == 4 then w.(payment := w.payment.(zip := v)) else w
    case EmailNext =>
      if w.step != 1 then w
      else if !ValidateEmail(Trim(w.email)) then w.(error := Some(InvalidEmail))
      else w.(step := 2, error := None)
    case PasswordNext =>
      if w.step != 2 then w
      else if !ValidatePassword(w.password) then w.(error := Some(BadPassword))
      else w.(step := 3, error := None)
    case PlanNext => if w.step == 3 then w.(step := 4) else w
    case Back => if w.step > 1 then w.(step := if w.step - 1 > 1 then w.step - 1 else 1) else w
  }

  /** Every payment field holds what its input filter produces. */
  predicate FilteredPayment(p: Payment) {
    && FormatCardNumber(p.cardNumber) == p.cardNumber
    && FormatExpiry(p.expiry) == p.expiry
    && DigitField(p.cvc, 4) == p.cvc
  }

  /** What holds of the wizard at every moment: the step is one of the four,
      a step past the email step has a valid email behind it, a step past the
      password step a valid password, and the payment fields are filtered. */
  predicate Consistent(w: Wizard) {
    && 1 <= w.step <= 4
    && (w.step >= 2 ==> ValidateEmail(Trim(w.email)))
    && (w.step >= 3 ==> ValidatePassword(w.password))
    && FilteredPayment(w.payment)
  }

  lemma StartConsistent()
    ensures Consistent(Start)
  {
    assert Digits("") == "";
    assert FormatCardNumber("") == "";
  }

  lemma ApplyKeepsConsistent(w: Wizard, e: Event)
    requires Consistent(w)
    ensures Consistent(Apply(w, e))
  {
    match e
    case EditCard(v) => CardFormatIdempotent(v);
    case EditExpiry(v) => ExpiryFormatIdempotent(v);
    case EditCvc(v) => DigitFieldIdempotent(v, 4);
    case _ =>
  }

  function Run(w: Wizard, events: seq<Event>): Wizard
    decreases |events|
  {
    if events == [] then w else Run(Apply(w, events[0]), events[1..])
  }

  /** However the person clicks and types, the wizard stays consistent. */
  lemma {:induction false} RunKeepsConsistent(w: Wizard, events: seq<Event>)
    requires Consistent(w)
    ensures Consistent(Run(w, events))
    decreases |events|
  {
    if events != [] {
      ApplyKeepsConsistent(w, events[0]);
      RunKeepsConsistent(Apply(w, events[0]), events[1..]);
    }
  }

  // ---------------------------------------------------------------------
  // handlePaymentSubmit

  datatype Submitted = Submitted(wizard: Wizard, store: AuthStore.Store)

  /** `name.trim() || "User"`. */
  function DisplayName(name: string): (r: string)
    ensures r != ""
    ensures Trim(name) != "" ==> r == Trim(name)
  {
    if Trim(name) != "" then Trim(name) else AuthStore.DefaultName
  }

  /** `handlePaymentSubmit`: the first failing payment check is reported and
      nothing is stored; otherwise `signup` runs with the trimmed email and
      the display name, and its refusal is shown or the wizard finishes. */
  function SubmitPayment(w: Wizard, s: AuthStore.Store, freshId: string, today: string): (o: Submitted)
    ensures w.step != 4 ==> o == Submitted(w, s)
    ensures w.step == 4 && PaymentProblem(w.payment).Some? ==>
      o == Submitted(w.(error := PaymentProblem(w.payment)), s)
    ensures o.store != s ==> o.wizard.finished && PaymentProblem(w.payment).None? && w.step == 4
    ensures w.step == 4 && PaymentProblem(w.payment).None? ==>
      var su := AuthStore.Signup(s, Trim(w.email), w.password, DisplayName(w.name), w.planId, freshId, today);
      && o.store == su.store
      && (su.reply == AuthStore.Done ==> o.wizard == w.(error := None, finished := true))
      && (su.reply.Refused? ==> o.wizard == w.(error := Some(SignupRefused(su.reply.error))))
  {
    if w.step != 4 then Submitted(w, s)
    else
      match PaymentProblem(w.payment)
      case Some(p) => Submitted(w.(error := Some(p)), s)
      case None =>
        var su := AuthStore.Signup(s, Trim(w.email), w.password, DisplayName(w.name), w.planId, freshId, today);
        if su.reply == AuthStore.Done then Submitted(w.(error := None, finished := true), su.store)
        else if su.reply.Refused? then Submitted(w.(error := Some(SignupRefused(su.reply.error))), su.store)
        else Submitted(w, su.store)
  }

  /** An account created through the wizard has an email the pattern
      accepts, stored trimmed, and a password of 4 to 60 code units. */
  lemma SubmitCreatesValidAccount(w: Wizard, s: AuthStore.Store, freshId: string, today: string)
    requires Consistent(w)
    ensures var users := SubmitPayment(w, s, freshId, today).store.users;
      users != s.users ==>
        && |users| == |s.users| + 1
        && ValidateEmail(users[|s.users|].data.email)
        && Trimmed(users[|s.users|].data.email)
        && ValidatePassword(users[|s.users|].password)
  {
    var o := SubmitPayment(w, s, freshId, today);
    if o.store.users != s.users {
      var e := Trim(w.email);
      var su := AuthStore.Signup(s, e, w.password, DisplayName(w.name), w.planId, freshId, today);
      assert su.store != s;
      assert forall i :: 0 <= i < |s.users| ==> !AuthStore.SameEmail(s.users[i], e);
      TrimIdempotent(w.email);
      assert su.store.users[|s.users|].data.email == e;
    }
  }
}
