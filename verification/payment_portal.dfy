/** The payment portal page: the registration typed into the form is
    upper-cased and stripped to letters and digits; URL parameters prefill
    the form; the pay buttons and the submit handler refuse a form without
    a PCN, a registration and a positive amount; a valid form opens the
    payment popup with its three parameters. */
module PaymentPortal {
  import opened Wrappers
  import opened JsText
  import opened JsNumber
  import opened SearchPage
  import Checkout

  datatype PortalForm = PortalForm(pcnNumber: string, vehicleRegistration: string, email: string, penaltyAmount: JsNum)

  /** The amount the form starts with, and the one an unreadable prefilled
      amount falls back to. */
  const DefaultAmount := Finite(Dec(90, 0))

  const InitialForm := PortalForm("", "", "", DefaultAmount)

  // ---------------------------------------------------------------------------
  // The registration field

  /** A character the registration field keeps: `[A-Z0-9]`. */
  predicate VrmChar(c: char) {
    'A' <= c <= 'Z' || '0' <= c <= '9'
  }

  predicate NormalVrm(s: string) {
    forall i :: 0 <= i < |s| ==> VrmChar(s[i])
  }

  /** `s.replace(/[^A-Z0-9]/g, '')`. */
  function StripVrm(s: string): (r: string)
    ensures NormalVrm(r) && |r| <= |s|
  {
    if s == [] then []
    else if VrmChar(s[0]) then [s[0]] + StripVrm(s[1..])
    else StripVrm(s[1..])
  }

  /** Stripping keeps every letter and digit and nothing else. */
  lemma {:induction false} StripVrmContents(s: string)
    ensures forall c :: c in StripVrm(s) <==> c in s && VrmChar(c)
  {
    if s != [] {
      StripVrmContents(s[1..]);
      assert s == [s[0]] + s[1..];
    }
  }

  /** What typing into the registration field stores. */
  function NormaliseVrm(v: string): (r: string)
    ensures NormalVrm(r) && |r| <= |v|
    ensures forall c :: c in r <==> c in ToUpper(v) && VrmChar(c)
  {
    StripVrmContents(ToUpper(v));
    StripVrm(ToUpper(v))
  }

  /** Stripping keeps the order of what it keeps: it works piece by piece. */
  lemma {:induction false} StripVrmConcat(a: string, b: string)
    ensures StripVrm(a + b) == StripVrm(a) + StripVrm(b)
  {
    if a == [] {
      assert a + b == b;
    } else {
      assert (a + b)[0] == a[0] && (a + b)[1..] == a[1..] + b;
      StripVrmConcat(a[1..], b);
    }
  }

  /** A normal registration is left alone by stripping. */
  lemma {:induction false} StripNormal(s: string)
    requires NormalVrm(s)
    ensures StripVrm(s) == s
  {
    if s != [] {
      StripNormal(s[1..]);
    }
  }

  /** Upper-casing leaves a normal registration alone. */
  lemma UpperNormal(s: string)
    requires NormalVrm(s)
    ensures ToUpper(s) == s
  {
  }

  /** A registration is left alone exactly when it is already normal, so
      normalising twice is normalising once. */
  lemma NormaliseFixedPoints(v: string)
    ensures NormaliseVrm(v) == v <==> NormalVrm(v)
    ensures NormaliseVrm(NormaliseVrm(v)) == NormaliseVrm(v)
  {
    if NormalVrm(v) {
      UpperNormal(v);
      StripNormal(v);
    }
    var r := NormaliseVrm(v);
    UpperNormal(r);
    StripNormal(r);
  }

  // ---------------------------------------------------------------------------
  // Typing into the form

  datatype Field = PcnField | VehicleField | EmailField | AmountField

  /** `parseFloat(value) || 0`. */
  function TypedAmount(value: string): (x: JsNum)
    ensures x != NaN
    ensures Truthy(ParseFloat(value)) ==> x == ParseFloat(value)
  {
    var p := ParseFloat(value);
    if Truthy(p) then p else Finite(Dec(0, 0))
  }

  /** One field takes the typed value: the registration normalised, the
      amount read as a number (zero when unreadable); the others as typed. */
  function HandleInputChange(form: PortalForm, field: Field, value: string): (f: PortalForm)
    ensures field == VehicleField ==> f == form.(vehicleRegistration := NormaliseVrm(value))
    ensures field == AmountField ==> f == form.(penaltyAmount := TypedAmount(value))
    ensures field == PcnField ==> f == form.(pcnNumber := value)
    ensures field == EmailField ==> f == form.(email := value)
  {
    match field
    case PcnField => form.(pcnNumber := value)
    case VehicleField => form.(vehicleRegistration := NormaliseVrm(value))
    case EmailField => form.(email := value)
    case AmountField => form.(penaltyAmount := TypedAmount(value))
  }

  /** A form filled only by typing: its registration is normal and its
      amount is a number. */
  predicate Typed(form: PortalForm) {
    NormalVrm(form.vehicleRegistration) && form.penaltyAmount != NaN
  }

  /** Typing keeps a form typed, whichever field and whatever text. */
  lemma TypingKeepsTyped(form: PortalForm, field: Field, value: string)
    requires Typed(form)
    ensures Typed(HandleInputChange(form, field, value))
  {
  }

  // ---------------------------------------------------------------------------
  // Prefill from the page's URL

  const PcnKey := "pcn"
  const PcnNumberKey := "pcnNumber"
  const VehicleKey := "vehicle"
  const VehicleRegistrationKey := "vehicleRegistration"
  const AmountKey := "amount"
  const PenaltyAmountKey := "penaltyAmount"
  const EmailKey := "email"

  /** `a || b` on two parameters: the first when it is filled. */
  function EitherParam(ps: Params, first: string, second: string): (r: Option<string>)
    ensures Given(GetParam(ps, first)) ==> r == GetParam(ps, first)
    ensures !Given(GetParam(ps, first)) ==> r == GetParam(ps, second)
  {
    var a := GetParam(ps, first);
    if Given(a) then a else GetParam(ps, second)
  }

  /** `parseFloat(amount) || 90`. */
  function PrefilledAmount(text: string): (x: JsNum)
    ensures Truthy(x)
    ensures Truthy(ParseFloat(text)) ==> x == ParseFloat(text)
  {
    var p := ParseFloat(text);
    if Truthy(p) then p else DefaultAmount
  }

  /** The form after the URL parameters: each field whose parameter is
      filled takes it, the registration upper-cased (but not stripped) and
      the amount read as a number; the other fields keep their values. */
  function Prefill(form: PortalForm, ps: Params): (f: PortalForm)
    ensures var pcn := EitherParam(ps, PcnKey, PcnNumberKey);
      f.pcnNumber == if Given(pcn) then pcn.value else form.pcnNumber
    ensures var v := EitherParam(ps, VehicleKey, VehicleRegistrationKey);
      f.vehicleRegistration == if Given(v) then ToUpper(v.value) else form.vehicleRegistration
    ensures var a := EitherParam(ps, AmountKey, PenaltyAmountKey);
      f.penaltyAmount == if Given(a) then PrefilledAmount(a.value) else form.penaltyAmount
    ensures f.email == if Given(GetParam(ps, EmailKey)) then GetParam(ps, EmailKey).value else form.email
  {
    var pcn := EitherParam(ps, PcnKey, PcnNumberKey);
    var v := EitherParam(ps, VehicleKey, VehicleRegistrationKey);
    var a := EitherParam(ps, AmountKey, PenaltyAmountKey);
    var e := GetParam(ps, EmailKey);
    if !(Given(pcn) || Given(v) || Given(a) || Given(e)) then form
    else
      form.(pcnNumber := if Given(pcn) then pcn.value else form.pcnNumber,
            vehicleRegistration := if Given(v) then ToUpper(v.value) else form.vehicleRegistration,
            penaltyAmount := if Given(a) then PrefilledAmount(a.value) else form.penaltyAmount,
            email := if Given(e) then e.value else form.email)
  }

  /** The short parameter names win over the long ones when both are given. */
  lemma ShortNamesWin(form: PortalForm, ps: Params, pcn: string, vehicle: string, amount: string)
    requires GetParam(ps, PcnKey) == Some(pcn) && GetParam(ps, VehicleKey) == Some(vehicle)
    requires GetParam(ps, AmountKey) == Some(amount)
    requires pcn != [] && vehicle != [] && amount != []
    ensures var f := Prefill(form, ps);
      f.pcnNumber == pcn && f.vehicleRegistration == ToUpper(vehicle) && f.penaltyAmount == PrefilledAmount(amount)
  {
  }

  /** Parameters that are absent or empty leave the form as it was. */
  lemma AbsentParamsKeepForm(form: PortalForm, ps: Params)
    requires forall i :: 0 <= i < |ps| ==>
      ps[i].1 == [] || ps[i].0 !in {PcnKey, PcnNumberKey, VehicleKey, VehicleRegistrationKey, AmountKey, PenaltyAmountKey, EmailKey}
    ensures Prefill(form, ps) == form
  {
    forall k | k in {PcnKey, PcnNumberKey, VehicleKey, VehicleRegistrationKey, AmountKey, PenaltyAmountKey, EmailKey}
      ensures !Given(GetParam(ps, k))
    {
      if GetParam(ps, k).Some? {
        var i :| 0 <= i < |ps| && ps[i] == (k, GetParam(ps, k).value);
      }
    }
  }

  /** A prefilled registration is only upper-cased: "ab 12" arrives as
      "AB 12", which typing the same text would have stored as "AB12". */
  lemma PrefilledVehicleNotStripped()
    ensures Prefill(InitialForm, [(VehicleKey, "ab 12")]).vehicleRegistration == "AB 12"
    ensures HandleInputChange(InitialForm, VehicleField, "ab 12").vehicleRegistration == "AB12"
    ensures !Typed(Prefill(InitialForm, [(VehicleKey, "ab 12")]))
  {
    OnlyVehicleParam(InitialForm, "ab 12");
    UpperExample();
    StripExample();
    assert "AB 12"[2] == ' ';
  }

  lemma UpperExample()
    ensures ToUpper("ab 12") == "AB 12"
  {
    var u := ToUpper("ab 12");
    assert u[0] == 'A' && u[1] == 'B' && u[2] == ' ' && u[3] == '1' && u[4] == '2';
  }

  lemma StripExample()
    ensures StripVrm("AB 12") == "AB12"
  {
    StripAroundSpace("AB", "12");
    assert "AB" + " " + "12" == "AB 12";
    assert "AB" + "12" == "AB12";
  }

  /** A space between two normal pieces is dropped. */
  lemma StripAroundSpace(a: string, b: string)
    requires NormalVrm(a) && NormalVrm(b)
    ensures StripVrm(a + " " + b) == a + b
  {
    StripVrmConcat(a + " ", b);
    StripVrmConcat(a, " ");
    StripNormal(a);
    StripNormal(b);
    assert StripVrm(" ") == [];
    assert StripVrm(a + " ") == a;
  }

  /** A lone registration parameter arrives upper-cased. */
  lemma OnlyVehicleParam(form: PortalForm, v: string)
    requires v != []
    ensures Prefill(form, [(VehicleKey, v)]).vehicleRegistration == ToUpper(v)
  {
    assert GetParam([(VehicleKey, v)], VehicleKey) == Some(v);
  }

  // ---------------------------------------------------------------------------
  // Submitting

  /** `amount <= 0` on a JavaScript number: false for NaN. */
  predicate NotAboveZero(x: JsNum) {
    x.NegInf? || (x.Finite? && x.d.mant <= 0)
  }

  /** The condition that disables the three pay buttons and makes the
      submit handler refuse: a missing PCN or registration, or an amount
      that is falsy or not above zero. */
  predicate CannotPay(form: PortalForm) {
    form.pcnNumber == [] || form.vehicleRegistration == [] || !Truthy(form.penaltyAmount)
    || NotAboveZero(form.penaltyAmount)
  }

  /** A form can be paid exactly when it has a PCN, a registration and a
      positive amount. */
  lemma CanPayIff(form: PortalForm)
    ensures !CannotPay(form) <==> form.pcnNumber != [] && form.vehicleRegistration != [] && Positive(form.penaltyAmount)
  {
  }

  /** With a PCN and a registration, the page refuses exactly the amounts
      the checkout route refuses. */
  lemma AmountCheckAgreesWithCheckout(form: PortalForm)
    requires form.pcnNumber != [] && form.vehicleRegistration != []
    ensures CannotPay(form) <==> Checkout.AmountIssues(form.penaltyAmount) != []
  {
  }

  /** What submitting does: the validation toast, or the popup opened on the
      form's parameters, with the "Popup Blocked" toast when the browser
      refused to open it. */
  datatype SubmitResult = ValidationToast | OpenPopup(params: Params, blockedToast: bool)

  /** The popup's parameters: exactly the PCN, the registration and the
      amount's text, in that order. */
  function PopupParams(form: PortalForm): (ps: Params)
    ensures |ps| == 3 && ps[0] == (PcnKey, form.pcnNumber) && ps[1] == (VehicleKey, form.vehicleRegistration)
    ensures ps[2] == (AmountKey, JsNumToString(form.penaltyAmount))
  {
    [(PcnKey, form.pcnNumber), (VehicleKey, form.vehicleRegistration), (AmountKey, JsNumToString(form.penaltyAmount))]
  }

  /** `handleFormSubmit`: a toast for a form that cannot be paid, otherwise
      the popup opened on the form's parameters; `popupOpened` is whether
      `window.open` returned a window. */
  function Submit(form: PortalForm, popupOpened: bool): (r: SubmitResult)
    ensures r.ValidationToast? <==> CannotPay(form)
    ensures r.OpenPopup? ==> r.params == PopupParams(form) && (r.blockedToast <==> !popupOpened)
  {
    if CannotPay(form) then ValidationToast else OpenPopup(PopupParams(form), !popupOpened)
  }

  /** A typed form sent to the popup is read back by the same prefill with
      its PCN and registration unchanged. */
  lemma PopupParamsReadBack(form: PortalForm)
    requires Typed(form) && !CannotPay(form)
    ensures var f := Prefill(InitialForm, Submit(form, true).params);
      f.pcnNumber == form.pcnNumber && f.vehicleRegistration == form.vehicleRegistration && f.email == []
  {
    var ps := PopupParams(form);
    assert GetParam(ps, PcnKey) == Some(form.pcnNumber);
    assert GetParam(ps, VehicleKey) == Some(form.vehicleRegistration);
    assert GetParam(ps, EmailKey).None?;
    UpperNormal(form.vehicleRegistration);
  }
}
