/** `POST /api/stripe-webhook`: a verified Stripe event updates the store.
    A completed checkout links the customer and the schedule to the new
    subscription and records the first payment; each paid invoice records
    the next payment, and the third completes the schedule and marks its
    penalty paid; a deleted subscription cancels the schedule. Errors are
    logged and swallowed: the steps before a failure stay written, the
    ones after it are skipped, and the reply is `{ received: true }`. */
module Webhook {
  import opened Wrappers
  import opened JsText
  import opened JsNumber
  import opened Schema
  import opened Tables
  import opened RecordStore

  /** Thirty days in milliseconds: the gap to the next payment date. */
  const ThirtyDays := 30 * 24 * 60 * 60 * 1000

  const PaidStatus := "paid"

  /** A subscription as Stripe returns it: its id and the metadata the
      checkout attached (the monthly amount read as a number, and the key of
      the portal's schedule). An absent or empty value is `None`. */
  datatype Subscription = Subscription(id: string, monthlyAmount: Option<JsNum>, paymentScheduleId: Option<Id>)

  /** A completed checkout session: the subscription it started (as Stripe
      returns it when the session names one), the Stripe customer, and the
      metadata the checkout attached. The Stripe customer and the metadata's
      `scheduleId` are kept as sent, and the handler tests them for
      truthiness, so an empty one counts as missing; the metadata's
      `customerId` and `paymentScheduleId` are portal keys, `None` when
      absent or empty. */
  datatype Session = Session(
    id: string,
    subscription: Option<Subscription>,
    customer: Option<string>,
    scheduleId: Option<string>,
    customerId: Option<Id>,
    paymentScheduleId: Option<Id>)

  /** A paid invoice: its subscription, the amount paid in pence, when it
      was paid (seconds, zero when unset) and its payment intent. */
  datatype Invoice = Invoice(subscription: Option<Subscription>, amountPaid: int, paidAt: Option<int>,
                             paymentIntent: Option<string>)

  datatype Event =
    | CheckoutCompleted(session: Session)
    | InvoicePaid(invoice: Invoice)
    | SubscriptionDeleted(subscription: Subscription)
    | OtherEvent

  // ---------------------------------------------------------------------------
  // checkout.session.completed

  /** The customer named in the metadata, given the Stripe customer,
      subscription and schedule ids; no change when the metadata names none. */
  function LinkCustomer(db: Db, customerId: Option<Id>, customerRef: string, subscriptionId: string, scheduleRef: string)
    : (r: Result<Db, DbError>)
    ensures customerId.None? ==> r == Success(db)
    ensures customerId.Some? ==> (r.Failure? <==> GetCustomer(db, customerId.value).None?)
    ensures r.Success? ==> r.value.penalties == db.penalties && r.value.schedules == db.schedules
                           && r.value.payments == db.payments
  {
    if customerId.None? then Success(db)
    else match UpdateCustomerStripeInfo(db, customerId.value, customerRef, Some(subscriptionId), Some(scheduleRef))
      case Failure(e) => Failure(e)
      case Success((db', _)) => Success(db')
  }

  /** The patch that activates a schedule on its subscription, next payment in thirty days. */
  function ActivatePatch(subscriptionId: string, now: int): SchedulePatch {
    SchedulePatch(Some(subscriptionId), Some(Active), Some(Some(now + ThirtyDays)), None)
  }

  const FirstPaymentCounted := SchedulePatch(None, None, None, Some(1))

  /** The first payment: the monthly amount from the metadata (zero when
      absent), completed, paid and due now, tied to the session. */
  function FirstPayment(scheduleId: Id, customerId: Option<Id>, sub: Subscription, sessionId: string, now: int)
    : (np: NewPayment)
    ensures np.paymentNumber == 1 && np.status == Some(PaymentCompleted) && np.scheduleId == scheduleId
    ensures np.amount == (if sub.monthlyAmount.Some? then sub.monthlyAmount.value else Finite(Dec(0, 0)))
  {
    NewPayment(scheduleId, customerId, sub.monthlyAmount.GetOr(Finite(Dec(0, 0))), 1, Some(PaymentCompleted),
               None, Some(sessionId), Some(now), now)
  }

  /** The schedule activated, the first payment recorded, then the count set
      to one; each step only when the one before it succeeded. */
  function RecordFirstPayment(db: Db, scheduleId: Id, customerId: Option<Id>, sub: Subscription, sessionId: string,
                              now: int): (db': Db)
    ensures db'.customers == db.customers && db'.penalties == db.penalties
    ensures GetPaymentSchedule(db, scheduleId).None? ==> db' == db
  {
    match UpdatePaymentSchedule(db, scheduleId, ActivatePatch(sub.id, now), now)
    case Failure(_) => db
    case Success((db1, _)) =>
      match CreatePayment(db1, FirstPayment(scheduleId, customerId, sub, sessionId, now), now)
      case Failure(_) => db1
      case Success((db2, _)) =>
        match UpdatePaymentSchedule(db2, scheduleId, FirstPaymentCounted, now)
        case Failure(_) => db2
        case Success((db3, _)) => db3
  }

  /** `checkout.session.completed`: nothing without a subscription, a
      non-empty customer and a non-empty Stripe schedule id in the metadata. */
  function CompleteCheckout(db: Db, s: Session, now: int): (db': Db)
    ensures s.subscription.None? || !Given(s.customer) || !Given(s.scheduleId) ==> db' == db
    ensures db'.penalties == db.penalties
  {
    if s.subscription.None? || !Given(s.customer) || !Given(s.scheduleId) then db
    else
      match LinkCustomer(db, s.customerId, s.customer.value, s.subscription.value.id, s.scheduleId.value)
      case Failure(_) => db
      case Success(db1) =>
        if s.paymentScheduleId.None? then db1
        else RecordFirstPayment(db1, s.paymentScheduleId.value, s.customerId, s.subscription.value, s.id, now)
  }

  // ---------------------------------------------------------------------------
  // invoice.payment_succeeded

  /** The payment an invoice records: number `n`, the amount paid (pence
      divided by a hundred), completed, paid when the invoice says (or now),
      with the invoice's payment intent unless that is missing or empty. */
  function InstalmentPayment(scheduleId: Id, customerId: Id, inv: Invoice, n: int, now: int): (np: NewPayment)
    ensures np.paymentNumber == n && np.status == Some(PaymentCompleted) && np.customerId == Some(customerId)
    ensures np.amount == Finite(Dec(inv.amountPaid, -2))
    ensures np.stripePaymentIntentId.Some? <==> inv.paymentIntent.Some? && inv.paymentIntent.value != []
    ensures np.stripePaymentIntentId.Some? ==> np.stripePaymentIntentId == inv.paymentIntent
  {
    var paid := if inv.paidAt.Some? && inv.paidAt.value != 0 then inv.paidAt.value * 1000 else now;
    var intent := if inv.paymentIntent == Some("") then None else inv.paymentIntent;
    NewPayment(scheduleId, Some(customerId), Finite(Dec(inv.amountPaid, -2)), n, Some(PaymentCompleted),
               intent, None, Some(paid), now)
  }

  /** The count after payment `n`: completed with no next date at three,
      otherwise active with the next date in thirty days. */
  function CountPatch(n: int, now: int): (u: SchedulePatch)
    ensures u.paymentsCompleted == Some(n) && u.stripeSubscriptionId.None?
    ensures n >= 3 ==> u.status == Some(Completed) && u.nextPaymentDate == Some(None)
    ensures n < 3 ==> u.status == Some(Active) && u.nextPaymentDate == Some(Some(now + ThirtyDays))
  {
    SchedulePatch(None, Some(if n >= 3 then Completed else Active),
                  Some(if n < 3 then Some(now + ThirtyDays) else None), Some(n))
  }

  /** The schedule an invoice pays, when the subscription names one on file
      with fewer than three payments made. */
  function InvoiceSchedule(db: Db, inv: Invoice): (r: Option<PaymentSchedule>)
    ensures r.Some? ==> r.value.paymentsCompleted < 3 && r.value in db.schedules
    ensures r.Some? ==> inv.subscription.Some? && inv.subscription.value.paymentScheduleId == Some(r.value.id)
                        && GetPaymentSchedule(db, r.value.id) == r
  {
    if inv.subscription.None? || inv.subscription.value.paymentScheduleId.None? then None
    else match GetPaymentSchedule(db, inv.subscription.value.paymentScheduleId.value)
      case None => None
      case Some(s) => if s.paymentsCompleted < 3 then Some(s) else None
  }

  /** The payment recorded and the count moved on; with it the schedule as
      it was, when this payment was its third and both writes succeeded. */
  function CountInstalment(db: Db, inv: Invoice, now: int): (r: (Db, Option<PaymentSchedule>))
    ensures r.0.customers == db.customers && r.0.penalties == db.penalties
    ensures InvoiceSchedule(db, inv).None? ==> r == (db, None)
    ensures r.1.Some? ==> InvoiceSchedule(db, inv) == r.1 && r.1.value.paymentsCompleted + 1 >= 3
  {
    match InvoiceSchedule(db, inv)
    case None => (db, None)
    case Some(cur) => PayInstalment(db, cur, InstalmentPayment(cur.id, cur.customerId, inv, cur.paymentsCompleted + 1, now), now)
  }

  /** The payment `np` recorded for `cur`, then the count set to its number. */
  function PayInstalment(db: Db, cur: PaymentSchedule, np: NewPayment, now: int): (r: (Db, Option<PaymentSchedule>))
    ensures r.0.customers == db.customers && r.0.penalties == db.penalties
    ensures r.1.Some? ==> r.1 == Some(cur) && np.paymentNumber >= 3
  {
    match CreatePayment(db, np, now)
    case Failure(_) => (db, None)
    case Success((db1, _)) =>
      match UpdatePaymentSchedule(db1, cur.id, CountPatch(np.paymentNumber, now), now)
      case Failure(_) => (db1, None)
      case Success((db2, _)) => (db2, if np.paymentNumber >= 3 then Some(cur) else None)
  }

  /** The patch that marks a penalty paid. */
  const PaidPatch := StatusOnly.(status := Some(PaidStatus))

  /** The penalty with this key marked paid. */
  function MarkPenaltyPaid(db: Db, penaltyId: Id, now: int): (db': Db)
    ensures db'.customers == db.customers && db'.schedules == db.schedules && db'.payments == db.payments
    ensures GetPenalty(db, penaltyId).None? ==> db' == db
  {
    match GetPenalty(db, penaltyId)
    case None => db
    case Some(p) =>
      match UpdatePenalty(db, p.id, PaidPatch, now)
      case Failure(_) => db
      case Success((db', _)) => db'
  }

  /** As written: the penalty whose ticket number is the customer's
      `pcnNumber` is marked paid, whichever penalty the schedule is for. */
  function MarkCustomerPcnPaid(db: Db, s: PaymentSchedule, now: int): (db': Db)
    ensures db'.customers == db.customers && db'.schedules == db.schedules && db'.payments == db.payments
  {
    match GetCustomer(db, s.customerId)
    case None => db
    case Some(c) =>
      if c.pcnNumber == [] then db
      else match GetPenaltyByTicketNo(db, c.pcnNumber)
        case None => db
        case Some(p) =>
          match UpdatePenalty(db, p.id, PaidPatch, now)
          case Failure(_) => db
          case Success((db', _)) => db'
  }

  /** `invoice.payment_succeeded`, marking the schedule's own penalty paid. */
  function RecordInstalment(db: Db, inv: Invoice, now: int): (db': Db)
    ensures db'.customers == db.customers
    ensures InvoiceSchedule(db, inv).None? ==> db' == db
  {
    var (db1, done) := CountInstalment(db, inv, now);
    if done.Some? then MarkPenaltyPaid(db1, done.value.penaltyId, now) else db1
  }

  /** `invoice.payment_succeeded` as written, marking the customer's first
      PCN paid. */
  function RecordInstalmentAsWritten(db: Db, inv: Invoice, now: int): (db': Db)
    ensures db'.customers == db.customers
    ensures InvoiceSchedule(db, inv).None? ==> db' == db
  {
    var (db1, done) := CountInstalment(db, inv, now);
    if done.Some? then MarkCustomerPcnPaid(db1, done.value, now) else db1
  }

  // ---------------------------------------------------------------------------
  // customer.subscription.deleted

  const CancelPatch := SchedulePatch(None, Some(Cancelled), None, None)

  /** The schedule the subscription names marked cancelled. */
  function CancelSchedule(db: Db, sub: Subscription, now: int): (db': Db)
    ensures db'.customers == db.customers && db'.penalties == db.penalties && db'.payments == db.payments
    ensures sub.paymentScheduleId.None? ==> db' == db
  {
    if sub.paymentScheduleId.None? then db
    else match UpdatePaymentSchedule(db, sub.paymentScheduleId.value, CancelPatch, now)
      case Failure(_) => db
      case Success((db', _)) => db'
  }

  // ---------------------------------------------------------------------------
  // The route

  /** The event dispatch as written: a paid invoice marks the customer's
      stored PCN paid. */
  function HandleEvent(db: Db, e: Event, now: int): (db': Db)
    ensures e.OtherEvent? ==> db' == db
    ensures !e.CheckoutCompleted? ==> db'.customers == db.customers
    ensures e.SubscriptionDeleted? ==> db'.penalties == db.penalties && db'.payments == db.payments
  {
    match e
    case CheckoutCompleted(s) => CompleteCheckout(db, s, now)
    case InvoicePaid(inv) => RecordInstalmentAsWritten(db, inv, now)
    case SubscriptionDeleted(sub) => CancelSchedule(db, sub, now)
    case OtherEvent => db
  }

  /** The dispatch with the corrected invoice handler, which marks the
      schedule's own penalty paid. */
  function HandleEventCorrected(db: Db, e: Event, now: int): (db': Db)
    ensures e.OtherEvent? ==> db' == db
    ensures !e.CheckoutCompleted? ==> db'.customers == db.customers
    ensures e.SubscriptionDeleted? ==> db'.penalties == db.penalties && db'.payments == db.payments
  {
    match e
    case CheckoutCompleted(s) => CompleteCheckout(db, s, now)
    case InvoicePaid(inv) => RecordInstalment(db, inv, now)
    case SubscriptionDeleted(sub) => CancelSchedule(db, sub, now)
    case OtherEvent => db
  }

  datatype WebhookReply = Received | BadRequest(text: string)

  const NoSecretText := "Webhook secret not configured"
  const WebhookErrorHead := "Webhook Error: "

  /** The route: 400 without a signing secret or when the signature check
      throws (with its message), otherwise the event handled and received. */
  function WebhookRoute(db: Db, secretConfigured: bool, verified: Result<Event, string>, now: int)
    : (r: (Db, WebhookReply))
    ensures r.1.BadRequest? <==> !secretConfigured || verified.Failure?
    ensures r.1.BadRequest? ==> r.0 == db
    ensures !secretConfigured ==> r.1 == BadRequest(NoSecretText)
    ensures secretConfigured && verified.Failure? ==> r.1.text == WebhookErrorHead + verified.error
  {
    if !secretConfigured then (db, BadRequest(NoSecretText))
    else match verified
      case Failure(m) => (db, BadRequest(WebhookErrorHead + m))
      case Success(e) => (HandleEvent(db, e, now), Received)
  }

  /** The route with the corrected dispatch; replies exactly as the route. */
  function WebhookRouteCorrected(db: Db, secretConfigured: bool, verified: Result<Event, string>, now: int)
    : (r: (Db, WebhookReply))
    ensures r.1 == WebhookRoute(db, secretConfigured, verified, now).1
    ensures r.1.BadRequest? ==> r.0 == db
    ensures r.1.Received? ==> r.0 == HandleEventCorrected(db, verified.value, now)
  {
    if !secretConfigured then (db, BadRequest(NoSecretText))
    else match verified
      case Failure(m) => (db, BadRequest(WebhookErrorHead + m))
      case Success(e) => (HandleEventCorrected(db, e, now), Received)
  }

  // ---------------------------------------------------------------------------
  // What the handlers keep

  /** A schedule's count stays within its three payments, and a completed
      schedule has all three and no next date. */
  predicate ScheduleSane(s: PaymentSchedule) {
    0 <= s.paymentsCompleted <= 3 && (s.status == Completed ==> s.paymentsCompleted == 3 && s.nextPaymentDate.None?)
  }

  predicate PaymentSane(p: Payment) {
    1 <= p.paymentNumber <= 3
  }

  /** Every schedule and every payment within the plan's three payments. */
  predicate Sane(db: Db) {
    (forall i :: 0 <= i < |db.schedules| ==> ScheduleSane(db.schedules[i]))
    && (forall i :: 0 <= i < |db.payments| ==> PaymentSane(db.payments[i]))
  }

  /** After a schedule update its key finds the patched row. */
  lemma ScheduleUpdateThenGet(db: Db, id: Id, u: SchedulePatch, now: int)
    requires UpdatePaymentSchedule(db, id, u, now).Success?
    ensures var (db', row) := UpdatePaymentSchedule(db, id, u, now).value;
      GetPaymentSchedule(db', id) == Some(row) && row == PatchedSchedule(GetPaymentSchedule(db, id).value, u, now)
  {
    var k := FindKey(db.schedules, ScheduleKey, id).value;
    var (db', row) := UpdatePaymentSchedule(db, id, u, now).value;
    assert db'.schedules == db.schedules[k := row];
    FindKeyAt(db'.schedules, ScheduleKey, id, k);
  }

  /** A schedule update whose patched row is sane keeps the store sane. */
  lemma ScheduleUpdateSane(db: Db, id: Id, u: SchedulePatch, now: int)
    requires Sane(db) && UpdatePaymentSchedule(db, id, u, now).Success?
    requires ScheduleSane(PatchedSchedule(GetPaymentSchedule(db, id).value, u, now))
    ensures Sane(UpdatePaymentSchedule(db, id, u, now).value.0)
  {
    var k := FindKey(db.schedules, ScheduleKey, id).value;
    var (db', row) := UpdatePaymentSchedule(db, id, u, now).value;
    assert db'.schedules == db.schedules[k := row];
  }

  /** A payment numbered within three keeps the store sane. */
  lemma PaymentSaneAppend(db: Db, np: NewPayment, now: int)
    requires Sane(db) && CreatePayment(db, np, now).Success? && 1 <= np.paymentNumber <= 3
    ensures Sane(CreatePayment(db, np, now).value.0)
  {
    var (db', row) := CreatePayment(db, np, now).value;
    assert db'.payments == db.payments + [row];
  }

  /** A schedule update whose patched row is sane keeps the store
      consistent and sane. */
  lemma ScheduleStepKeeps(db: Db, id: Id, u: SchedulePatch, now: int)
    requires Consistent(db) && Sane(db) && UpdatePaymentSchedule(db, id, u, now).Success?
    requires ScheduleSane(PatchedSchedule(GetPaymentSchedule(db, id).value, u, now))
    ensures Consistent(UpdatePaymentSchedule(db, id, u, now).value.0) && Sane(UpdatePaymentSchedule(db, id, u, now).value.0)
  {
    UpdatePaymentScheduleConsistent(db, id, u, now);
    ScheduleUpdateSane(db, id, u, now);
  }

  /** A payment numbered within three keeps the store consistent and sane. */
  lemma PaymentStepKeeps(db: Db, np: NewPayment, now: int)
    requires Consistent(db) && Sane(db) && CreatePayment(db, np, now).Success? && 1 <= np.paymentNumber <= 3
    ensures Consistent(CreatePayment(db, np, now).value.0) && Sane(CreatePayment(db, np, now).value.0)
  {
    CreatePaymentConsistent(db, np, now);
    PaymentSaneAppend(db, np, now);
  }

  /** Recording the first payment keeps the store consistent and sane: the
      schedule is active when its count is set to one. */
  lemma RecordFirstPaymentKeeps(db: Db, scheduleId: Id, customerId: Option<Id>, sub: Subscription, sessionId: string,
                                now: int)
    requires Consistent(db) && Sane(db)
    ensures var db' := RecordFirstPayment(db, scheduleId, customerId, sub, sessionId, now);
      Consistent(db') && Sane(db')
  {
    var u := ActivatePatch(sub.id, now);
    if UpdatePaymentSchedule(db, scheduleId, u, now).Success? {
      var (db1, row1) := UpdatePaymentSchedule(db, scheduleId, u, now).value;
      ActivatedSane(db, scheduleId, u, now);
      ScheduleUpdateThenGet(db, scheduleId, u, now);
      FirstPaymentCountedKeeps(db1, row1, scheduleId, FirstPayment(scheduleId, customerId, sub, sessionId, now), now);
    }
  }

  /** Activation writes a sane row and keeps the store consistent and sane. */
  lemma ActivatedSane(db: Db, scheduleId: Id, u: SchedulePatch, now: int)
    requires Consistent(db) && Sane(db) && UpdatePaymentSchedule(db, scheduleId, u, now).Success?
    requires u.status == Some(Active) && u.paymentsCompleted.None?
    ensures Consistent(UpdatePaymentSchedule(db, scheduleId, u, now).value.0)
    ensures Sane(UpdatePaymentSchedule(db, scheduleId, u, now).value.0)
  {
    var k := FindKey(db.schedules, ScheduleKey, scheduleId).value;
    assert ScheduleSane(db.schedules[k]);
    ScheduleStepKeeps(db, scheduleId, u, now);
  }

  /** The steps after activation: the payment numbered one, then the count
      set to one on the active row. */
  lemma FirstPaymentCountedKeeps(db: Db, row: PaymentSchedule, scheduleId: Id, np: NewPayment, now: int)
    requires Consistent(db) && Sane(db) && GetPaymentSchedule(db, scheduleId) == Some(row) && row.status == Active
    requires np.paymentNumber == 1
    ensures CreatePayment(db, np, now).Success? ==>
      var db2 := CreatePayment(db, np, now).value.0;
      Consistent(db2) && Sane(db2)
      && (UpdatePaymentSchedule(db2, scheduleId, FirstPaymentCounted, now).Success? ==>
            Consistent(UpdatePaymentSchedule(db2, scheduleId, FirstPaymentCounted, now).value.0)
            && Sane(UpdatePaymentSchedule(db2, scheduleId, FirstPaymentCounted, now).value.0))
  {
    if CreatePayment(db, np, now).Success? {
      PaymentStepKeeps(db, np, now);
      var db2 := CreatePayment(db, np, now).value.0;
      assert GetPaymentSchedule(db2, scheduleId) == Some(row);
      ScheduleStepKeeps(db2, scheduleId, FirstPaymentCounted, now);
    }
  }

  /** A completed checkout keeps the store consistent and sane. */
  lemma CompleteCheckoutKeeps(db: Db, s: Session, now: int)
    requires Consistent(db) && Sane(db)
    ensures Consistent(CompleteCheckout(db, s, now)) && Sane(CompleteCheckout(db, s, now))
  {
    if !(s.subscription.None? || !Given(s.customer) || !Given(s.scheduleId)) {
      var sub := s.subscription.value;
      match LinkCustomer(db, s.customerId, s.customer.value, sub.id, s.scheduleId.value)
      case Failure(_) =>
      case Success(db1) =>
        if s.customerId.Some? {
          UpdateCustomerStripeInfoConsistent(db, s.customerId.value, s.customer.value, Some(sub.id), Some(s.scheduleId.value));
        }
        if s.paymentScheduleId.Some? {
          RecordFirstPaymentKeeps(db1, s.paymentScheduleId.value, s.customerId, sub, s.id, now);
        }
    }
  }

  /** Counting an instalment keeps the store consistent and sane: the
      payment is numbered one to three and the count moves with it. */
  lemma CountInstalmentKeeps(db: Db, inv: Invoice, now: int)
    requires Consistent(db) && Sane(db)
    ensures Consistent(CountInstalment(db, inv, now).0) && Sane(CountInstalment(db, inv, now).0)
  {
    match InvoiceSchedule(db, inv)
    case None =>
      assert CountInstalment(db, inv, now).0 == db;
    case Some(cur) =>
      var np := InstalmentPayment(cur.id, cur.customerId, inv, cur.paymentsCompleted + 1, now);
      assert CountInstalment(db, inv, now).0 == PayInstalment(db, cur, np, now).0;
      var k := IndexOf(db.schedules, cur);
      assert ScheduleSane(db.schedules[k]);
      InstalmentKeeps(db, cur, np, now);
  }

  /** The payment numbered one past the count, then the count moved on. */
  lemma InstalmentKeeps(db: Db, cur: PaymentSchedule, np: NewPayment, now: int)
    requires Consistent(db) && Sane(db) && GetPaymentSchedule(db, cur.id) == Some(cur) && ScheduleSane(cur)
    requires cur.paymentsCompleted < 3 && np.paymentNumber == cur.paymentsCompleted + 1
    ensures Consistent(PayInstalment(db, cur, np, now).0) && Sane(PayInstalment(db, cur, np, now).0)
  {
    if CreatePayment(db, np, now).Success? {
      PaymentStepKeeps(db, np, now);
      var db1 := CreatePayment(db, np, now).value.0;
      assert GetPaymentSchedule(db1, cur.id) == Some(cur);
      if UpdatePaymentSchedule(db1, cur.id, CountPatch(np.paymentNumber, now), now).Success? {
        ScheduleStepKeeps(db1, cur.id, CountPatch(np.paymentNumber, now), now);
      }
    }
  }

  /** Marking a penalty paid touches neither schedules nor payments, and
      keeps the store consistent. */
  lemma MarkPaidKeeps(db: Db, penaltyId: Id, now: int)
    requires Consistent(db) && Sane(db)
    ensures Consistent(MarkPenaltyPaid(db, penaltyId, now)) && Sane(MarkPenaltyPaid(db, penaltyId, now))
  {
    match GetPenalty(db, penaltyId)
    case None =>
    case Some(p) =>
      if UpdatePenalty(db, p.id, PaidPatch, now).Success? {
        UpdatePenaltyConsistent(db, p.id, PaidPatch, now);
      }
  }

  /** A paid invoice keeps the store consistent and sane. */
  lemma RecordInstalmentKeeps(db: Db, inv: Invoice, now: int)
    requires Consistent(db) && Sane(db)
    ensures Consistent(RecordInstalment(db, inv, now)) && Sane(RecordInstalment(db, inv, now))
  {
    CountInstalmentKeeps(db, inv, now);
    var (db1, done) := CountInstalment(db, inv, now);
    if done.Some? { MarkPaidKeeps(db1, done.value.penaltyId, now); }
  }

  /** The paid invoice as written also keeps the store consistent and sane:
      it may mark the wrong penalty, but only a penalty's status changes. */
  lemma RecordInstalmentAsWrittenKeeps(db: Db, inv: Invoice, now: int)
    requires Consistent(db) && Sane(db)
    ensures Consistent(RecordInstalmentAsWritten(db, inv, now)) && Sane(RecordInstalmentAsWritten(db, inv, now))
  {
    CountInstalmentKeeps(db, inv, now);
    var (db1, done) := CountInstalment(db, inv, now);
    if done.Some? { MarkCustomerPcnPaidKeeps(db1, done.value, now); }
  }

  /** Marking the customer's PCN paid keeps the store consistent and sane. */
  lemma MarkCustomerPcnPaidKeeps(db: Db, s: PaymentSchedule, now: int)
    requires Consistent(db) && Sane(db)
    ensures Consistent(MarkCustomerPcnPaid(db, s, now)) && Sane(MarkCustomerPcnPaid(db, s, now))
  {
    match GetCustomer(db, s.customerId)
    case None =>
    case Some(c) =>
      if c.pcnNumber != [] {
        match GetPenaltyByTicketNo(db, c.pcnNumber)
        case None =>
        case Some(p) =>
          if UpdatePenalty(db, p.id, PaidPatch, now).Success? {
            UpdatePenaltyConsistent(db, p.id, PaidPatch, now);
          }
      }
  }

  /** A cancellation keeps the store consistent and sane. */
  lemma CancelScheduleKeeps(db: Db, sub: Subscription, now: int)
    requires Consistent(db) && Sane(db)
    ensures Consistent(CancelSchedule(db, sub, now)) && Sane(CancelSchedule(db, sub, now))
  {
    if sub.paymentScheduleId.Some? && UpdatePaymentSchedule(db, sub.paymentScheduleId.value, CancelPatch, now).Success? {
      CancelledSane(db, sub.paymentScheduleId.value, now);
    }
  }

  /** Cancelling keeps the count and writes a sane row. */
  lemma CancelledSane(db: Db, id: Id, now: int)
    requires Consistent(db) && Sane(db) && UpdatePaymentSchedule(db, id, CancelPatch, now).Success?
    ensures Consistent(UpdatePaymentSchedule(db, id, CancelPatch, now).value.0)
    ensures Sane(UpdatePaymentSchedule(db, id, CancelPatch, now).value.0)
  {
    var k := FindKey(db.schedules, ScheduleKey, id).value;
    assert ScheduleSane(db.schedules[k]);
    ScheduleStepKeeps(db, id, CancelPatch, now);
  }

  /** Every event the route accepts keeps the store consistent and sane. */
  lemma WebhookRouteKeeps(db: Db, secretConfigured: bool, verified: Result<Event, string>, now: int)
    requires Consistent(db) && Sane(db)
    ensures Consistent(WebhookRoute(db, secretConfigured, verified, now).0)
    ensures Sane(WebhookRoute(db, secretConfigured, verified, now).0)
  {
    if secretConfigured && verified.Success? {
      match verified.value
      case CheckoutCompleted(s) => CompleteCheckoutKeeps(db, s, now);
      case InvoicePaid(inv) => RecordInstalmentAsWrittenKeeps(db, inv, now);
      case SubscriptionDeleted(sub) => CancelScheduleKeeps(db, sub, now);
      case OtherEvent =>
    }
  }

  /** The corrected route keeps the store consistent and sane as well. */
  lemma WebhookRouteCorrectedKeeps(db: Db, secretConfigured: bool, verified: Result<Event, string>, now: int)
    requires Consistent(db) && Sane(db)
    ensures Consistent(WebhookRouteCorrected(db, secretConfigured, verified, now).0)
    ensures Sane(WebhookRouteCorrected(db, secretConfigured, verified, now).0)
  {
    if secretConfigured && verified.Success? {
      match verified.value
      case CheckoutCompleted(s) => CompleteCheckoutKeeps(db, s, now);
      case InvoicePaid(inv) => RecordInstalmentKeeps(db, inv, now);
      case SubscriptionDeleted(sub) => CancelScheduleKeeps(db, sub, now);
      case OtherEvent =>
    }
  }

  /** The two dispatches differ only on a paid invoice, and there they agree
      when the customer's stored PCN is the schedule's own penalty. */
  lemma DispatchesAgree(db: Db, e: Event, s: PaymentSchedule, c: Customer, p: Penalty, now: int)
    requires Consistent(db)
    requires e.InvoicePaid? ==>
      (InvoiceSchedule(db, e.invoice) == Some(s) && GetCustomer(db, s.customerId) == Some(c)
       && GetPenalty(db, s.penaltyId) == Some(p) && c.pcnNumber == p.ticketNo && p.ticketNo != [])
    ensures HandleEvent(db, e, now) == HandleEventCorrected(db, e, now)
  {
    if e.InvoicePaid? {
      AsWrittenAgrees(db, e.invoice, s, c, p, now);
    }
  }

  // ---------------------------------------------------------------------------
  // What each event does

  /** Pence divided by a hundred are stored as the same pence. */
  lemma AmountPaidExact(a: int)
    requires FitsMoney(a)
    ensures ToPence(Finite(Dec(a, -2))) == Success(a)
  {
    assert Pow10(0) == 1;
    assert Hundredths(Dec(a, -2)) == Abs(a);
  }

  /** A deleted subscription cancels its schedule whatever its count, and
      changes nothing else in the row. */
  lemma CancelledWhateverCount(db: Db, sub: Subscription, s: PaymentSchedule, now: int)
    requires sub.paymentScheduleId == Some(s.id) && GetPaymentSchedule(db, s.id) == Some(s)
    ensures GetPaymentSchedule(CancelSchedule(db, sub, now), s.id) == Some(s.(status := Cancelled, updatedAt := now))
  {
    ScheduleUpdateThenGet(db, s.id, CancelPatch, now);
  }

  /** The schedule a paid invoice names, once its payment converts, has its
      count moved on by one: completed with no next date at the third
      payment, active again with the next date in thirty days before it,
      whatever its status was (a cancelled schedule included). */
  lemma InstalmentCounted(db: Db, inv: Invoice, s: PaymentSchedule, now: int)
    requires Consistent(db) && InvoiceSchedule(db, inv) == Some(s) && FitsMoney(inv.amountPaid)
    ensures var db' := RecordInstalment(db, inv, now); var n := s.paymentsCompleted + 1;
      GetPaymentSchedule(db', s.id) == Some(s.(paymentsCompleted := n,
                                              status := if n >= 3 then Completed else Active,
                                              nextPaymentDate := if n < 3 then Some(now + ThirtyDays) else None,
                                              updatedAt := now))
      && |db'.payments| == |db.payments| + 1
  {
    CountedByPayment(db, inv, s, now);
    MarkingKeepsSchedules(db, inv, now);
    CountPatched(s, s.paymentsCompleted + 1, now);
  }

  /** The count step alone: the payment is appended and the schedule patched. */
  lemma CountedByPayment(db: Db, inv: Invoice, s: PaymentSchedule, now: int)
    requires Consistent(db) && InvoiceSchedule(db, inv) == Some(s) && FitsMoney(inv.amountPaid)
    ensures var db1 := CountInstalment(db, inv, now).0;
      GetPaymentSchedule(db1, s.id) == Some(PatchedSchedule(s, CountPatch(s.paymentsCompleted + 1, now), now))
      && |db1.payments| == |db.payments| + 1
  {
    var np := InstalmentPayment(s.id, s.customerId, inv, s.paymentsCompleted + 1, now);
    AmountPaidExact(inv.amountPaid);
    InstalmentWritten(db, s, np, now);
    assert CountInstalment(db, inv, now) == PayInstalment(db, s, np, now);
  }

  /** The count patch moves the count, the status and the next date. */
  lemma CountPatched(s: PaymentSchedule, n: int, now: int)
    ensures PatchedSchedule(s, CountPatch(n, now), now)
            == s.(paymentsCompleted := n, status := if n >= 3 then Completed else Active,
                  nextPaymentDate := if n < 3 then Some(now + ThirtyDays) else None, updatedAt := now)
  {
  }

  /** Marking the penalty paid after the count leaves schedules and
      payments as the count wrote them. */
  lemma MarkingKeepsSchedules(db: Db, inv: Invoice, now: int)
    ensures var (db1, done) := CountInstalment(db, inv, now); var db' := RecordInstalment(db, inv, now);
      db'.schedules == db1.schedules && db'.payments == db1.payments
      && (done.Some? ==> db' == MarkPenaltyPaid(db1, done.value.penaltyId, now))
  {
  }

  /** The two writes of an instalment both succeed when the payment's
      amount converts: the store's references give the customer. */
  lemma InstalmentWritten(db: Db, s: PaymentSchedule, np: NewPayment, now: int)
    requires Consistent(db) && s in db.schedules && GetPaymentSchedule(db, s.id) == Some(s)
    requires np.scheduleId == s.id && np.customerId == Some(s.customerId) && ToPence(np.amount).Success?
    ensures var (db', done) := PayInstalment(db, s, np, now); var n := np.paymentNumber;
      GetPaymentSchedule(db', s.id) == Some(PatchedSchedule(s, CountPatch(n, now), now))
      && |db'.payments| == |db.payments| + 1 && done == (if n >= 3 then Some(s) else None)
  {
    var k := IndexOf(db.schedules, s);
    assert s.customerId in Keys(db.customers, CustomerKey);
    FindKeyKeys(db.customers, CustomerKey, s.customerId);
    var db1 := CreatePayment(db, np, now).value.0;
    assert GetPaymentSchedule(db1, s.id) == Some(s);
    ScheduleUpdateThenGet(db1, s.id, CountPatch(np.paymentNumber, now), now);
  }

  /** The third payment marks the schedule's own penalty paid. */
  lemma ThirdPaymentMarksPaid(db: Db, inv: Invoice, s: PaymentSchedule, now: int)
    requires Consistent(db) && InvoiceSchedule(db, inv) == Some(s) && FitsMoney(inv.amountPaid)
    requires s.paymentsCompleted == 2
    ensures var db' := RecordInstalment(db, inv, now);
      GetPenalty(db', s.penaltyId).Some? && GetPenalty(db', s.penaltyId).value.status == PaidStatus
  {
    var np := InstalmentPayment(s.id, s.customerId, inv, 3, now);
    AmountPaidExact(inv.amountPaid);
    InstalmentWritten(db, s, np, now);
    assert CountInstalment(db, inv, now) == PayInstalment(db, s, np, now);
    var db1 := CountInstalment(db, inv, now).0;
    MarkingKeepsSchedules(db, inv, now);
    assert s in db.schedules;
    PenaltyOnFile(db, s);
    PenaltyMarkedPaid(db1, s.penaltyId, now);
  }

  /** A schedule's penalty is on file in a consistent store. */
  lemma PenaltyOnFile(db: Db, s: PaymentSchedule)
    requires Consistent(db) && s in db.schedules
    ensures GetPenalty(db, s.penaltyId).Some?
  {
    FindKeyKeys(db.penalties, PenaltyKey, s.penaltyId);
  }

  /** At the third payment both writes succeed and the count step hands
      the schedule on to be marked paid. */
  lemma ThirdCounted(db: Db, inv: Invoice, s: PaymentSchedule, now: int)
    requires Consistent(db) && InvoiceSchedule(db, inv) == Some(s) && FitsMoney(inv.amountPaid)
    requires s.paymentsCompleted == 2
    ensures CountInstalment(db, inv, now).1 == Some(s)
  {
    var np := InstalmentPayment(s.id, s.customerId, inv, 3, now);
    AmountPaidExact(inv.amountPaid);
    InstalmentWritten(db, s, np, now);
    assert CountInstalment(db, inv, now) == PayInstalment(db, s, np, now);
  }

  /** A penalty on file is marked paid by its key. */
  lemma PenaltyMarkedPaid(db: Db, penaltyId: Id, now: int)
    requires Distinct(db.penalties, PenaltyKey)
    ensures GetPenalty(db, penaltyId).Some? ==>
      var db' := MarkPenaltyPaid(db, penaltyId, now);
      GetPenalty(db', penaltyId).Some? && GetPenalty(db', penaltyId).value.status == PaidStatus
  {
    if GetPenalty(db, penaltyId).Some? {
      var k := FindKey(db.penalties, PenaltyKey, penaltyId).value;
      var (db', row) := UpdatePenalty(db, penaltyId, PaidPatch, now).value;
      assert db'.penalties == db.penalties[k := row];
      DistinctFindKey(db'.penalties, PenaltyKey, k);
    }
  }

  /** Marking one penalty paid leaves every other penalty as it was. */
  lemma OtherPenaltyUntouched(db: Db, penaltyId: Id, other: Id, now: int)
    requires Distinct(db.penalties, PenaltyKey) && other != penaltyId
    ensures GetPenalty(MarkPenaltyPaid(db, penaltyId, now), other) == GetPenalty(db, other)
  {
    if GetPenalty(db, penaltyId).Some? {
      var k := FindKey(db.penalties, PenaltyKey, penaltyId).value;
      var (db', row) := UpdatePenalty(db, penaltyId, PaidPatch, now).value;
      assert db'.penalties == db.penalties[k := row];
      FindKeyReplaceOther(db.penalties, k, row, PenaltyKey, other);
    }
  }

  /** As written, the marker finds the penalty by the customer's PCN and
      then does what marking that penalty by its key does. */
  lemma AsWrittenMarksTicket(db: Db, s: PaymentSchedule, c: Customer, q: Penalty, now: int)
    requires Distinct(db.penalties, PenaltyKey)
    requires GetCustomer(db, s.customerId) == Some(c) && c.pcnNumber != []
    requires GetPenaltyByTicketNo(db, c.pcnNumber) == Some(q)
    ensures MarkCustomerPcnPaid(db, s, now) == MarkPenaltyPaid(db, q.id, now)
  {
    DistinctFindKey(db.penalties, PenaltyKey, IndexOf(db.penalties, q));
  }

  /** The as-written handler, at a schedule's third payment, marks paid
      the penalty whose ticket is the customer's stored PCN; when that is
      another penalty than the schedule's, the schedule's own penalty is
      left as it was. */
  lemma WrongPenaltyMarkedPaid(db: Db, inv: Invoice, s: PaymentSchedule, c: Customer, q: Penalty, now: int)
    requires Consistent(db) && InvoiceSchedule(db, inv) == Some(s) && FitsMoney(inv.amountPaid)
    requires s.paymentsCompleted == 2
    requires GetCustomer(db, s.customerId) == Some(c) && c.pcnNumber != []
    requires GetPenaltyByTicketNo(db, c.pcnNumber) == Some(q) && q.id != s.penaltyId
    ensures var db' := RecordInstalmentAsWritten(db, inv, now);
      GetPenalty(db', q.id).Some? && GetPenalty(db', q.id).value.status == PaidStatus
      && GetPenalty(db', s.penaltyId) == GetPenalty(db, s.penaltyId)
  {
    ThirdCounted(db, inv, s, now);
    var db1 := CountInstalment(db, inv, now).0;
    assert RecordInstalmentAsWritten(db, inv, now) == MarkCustomerPcnPaid(db1, s, now);
    PcnMarkerMissesSchedule(db1, s, c, q, now);
  }

  /** The as-written marker, on a store where the customer's PCN names
      another penalty than the schedule's. */
  lemma PcnMarkerMissesSchedule(db: Db, s: PaymentSchedule, c: Customer, q: Penalty, now: int)
    requires Distinct(db.penalties, PenaltyKey)
    requires GetCustomer(db, s.customerId) == Some(c) && c.pcnNumber != []
    requires GetPenaltyByTicketNo(db, c.pcnNumber) == Some(q) && q.id != s.penaltyId
    ensures var db' := MarkCustomerPcnPaid(db, s, now);
      GetPenalty(db', q.id).Some? && GetPenalty(db', q.id).value.status == PaidStatus
      && GetPenalty(db', s.penaltyId) == GetPenalty(db, s.penaltyId)
  {
    AsWrittenMarksTicket(db, s, c, q, now);
    PenaltyMarkedPaid(db, q.id, now);
    OtherPenaltyUntouched(db, q.id, s.penaltyId, now);
  }

  /** When the customer's stored PCN is the ticket of the schedule's own
      penalty, the handler as written and the corrected one agree. */
  lemma AsWrittenAgrees(db: Db, inv: Invoice, s: PaymentSchedule, c: Customer, p: Penalty, now: int)
    requires Consistent(db) && InvoiceSchedule(db, inv) == Some(s)
    requires GetCustomer(db, s.customerId) == Some(c) && GetPenalty(db, s.penaltyId) == Some(p)
    requires c.pcnNumber == p.ticketNo && p.ticketNo != []
    ensures RecordInstalmentAsWritten(db, inv, now) == RecordInstalment(db, inv, now)
  {
    var (db1, done) := CountInstalment(db, inv, now);
    if done.Some? {
      DistinctFindKey(db1.penalties, TicketOf, IndexOf(db1.penalties, p));
      AsWrittenMarksTicket(db1, done.value, c, p, now);
    }
  }

  /** A store with one customer whose stored PCN is "A", penalties "A" and
      "B", and a schedule for "B" with two payments made. */
  const Returning := Customer(0, "driver@example.com", "A", "AB12CDE", None, None, None, 0)
  const FirstPcn := Penalty(1, "A", "AB12CDE", None, 6000, 0, None, None, None, "active", 0, 0)
  const SecondPcn := Penalty(2, "B", "AB12CDE", None, 6000, 0, None, None, None, "active", 0, 0)
  const SecondSchedule := PaymentSchedule(3, 0, 2, 6000, 2000, 3, 2, Active, Some("sub_2"), None, None, 0, 0)
  const TwoPcns := Db([Returning], [FirstPcn, SecondPcn], [SecondSchedule], [], 4)
  const ThirdInvoice := Invoice(Some(Subscription("sub_2", None, Some(3))), 2000, None, None)

  /** The third invoice for the second PCN's schedule: as written, the
      first PCN is marked paid and the second stays active; corrected, the
      second is paid and the first untouched. */
  lemma SecondPcnLeftActive(now: int)
    ensures var db' := RecordInstalmentAsWritten(TwoPcns, ThirdInvoice, now);
      GetPenalty(db', 1).Some? && GetPenalty(db', 1).value.status == PaidStatus && GetPenalty(db', 2) == Some(SecondPcn)
    ensures var db' := RecordInstalment(TwoPcns, ThirdInvoice, now);
      GetPenalty(db', 2).Some? && GetPenalty(db', 2).value.status == PaidStatus && GetPenalty(db', 1) == Some(FirstPcn)
  {
    TwoPcnsConsistent();
    assert InvoiceSchedule(TwoPcns, ThirdInvoice) == Some(SecondSchedule);
    assert GetCustomer(TwoPcns, 0) == Some(Returning);
    assert GetPenaltyByTicketNo(TwoPcns, "A") == Some(FirstPcn);
    assert GetPenalty(TwoPcns, 2) == Some(SecondPcn);
    assert GetPenalty(TwoPcns, 1) == Some(FirstPcn);
    WrongPenaltyMarkedPaid(TwoPcns, ThirdInvoice, SecondSchedule, Returning, FirstPcn, now);
    ThirdPaymentMarksPaid(TwoPcns, ThirdInvoice, SecondSchedule, now);
    CorrectedLeavesOthers(TwoPcns, ThirdInvoice, SecondSchedule, 1, now);
  }

  /** Through the route: the program's webhook marks the first PCN paid on
      the second PCN's third invoice; the corrected route marks the second. */
  lemma RouteLeavesSecondPcnActive(now: int)
    ensures var r := WebhookRoute(TwoPcns, true, Success(InvoicePaid(ThirdInvoice)), now);
      r.1 == Received && GetPenalty(r.0, 1).Some? && GetPenalty(r.0, 1).value.status == PaidStatus
      && GetPenalty(r.0, 2) == Some(SecondPcn)
    ensures var r := WebhookRouteCorrected(TwoPcns, true, Success(InvoicePaid(ThirdInvoice)), now);
      r.1 == Received && GetPenalty(r.0, 2).Some? && GetPenalty(r.0, 2).value.status == PaidStatus
      && GetPenalty(r.0, 1) == Some(FirstPcn)
  {
    SecondPcnLeftActive(now);
  }

  lemma TwoPcnsConsistent()
    ensures Consistent(TwoPcns)
  {
    assert CustomerKey(TwoPcns.customers[0]) == 0;
    assert PenaltyKey(TwoPcns.penalties[1]) == 2;
  }

  /** The corrected handler marks no penalty but the schedule's own. */
  lemma CorrectedLeavesOthers(db: Db, inv: Invoice, s: PaymentSchedule, other: Id, now: int)
    requires Consistent(db) && InvoiceSchedule(db, inv) == Some(s) && other != s.penaltyId
    ensures GetPenalty(RecordInstalment(db, inv, now), other) == GetPenalty(db, other)
  {
    var (db1, done) := CountInstalment(db, inv, now);
    MarkingKeepsSchedules(db, inv, now);
    if done.Some? {
      OtherPenaltyUntouched(db1, s.penaltyId, other, now);
    }
  }

  /** A completed checkout's first payment sets the schedule's count to one
      and makes it active on the subscription, whatever its count and
      status were before: a replayed event starts the count again. */
  lemma FirstPaymentSetsCount(db: Db, s: PaymentSchedule, customerId: Id, sub: Subscription, sessionId: string,
                              now: int)
    requires GetPaymentSchedule(db, s.id) == Some(s) && GetCustomer(db, customerId).Some?
    requires sub.monthlyAmount.None? || ToPence(sub.monthlyAmount.value).Success?
    ensures var db' := RecordFirstPayment(db, s.id, Some(customerId), sub, sessionId, now);
      GetPaymentSchedule(db', s.id) == Some(s.(stripeSubscriptionId := Some(sub.id), status := Active,
                                              nextPaymentDate := Some(now + ThirtyDays), paymentsCompleted := 1,
                                              updatedAt := now))
      && |db'.payments| == |db.payments| + 1 && db'.payments[|db.payments|].paymentNumber == 1
  {
    var u := ActivatePatch(sub.id, now);
    ScheduleUpdateThenGet(db, s.id, u, now);
    var (db1, row1) := UpdatePaymentSchedule(db, s.id, u, now).value;
    assert Pow10(0) == 1;
    var np := FirstPayment(s.id, Some(customerId), sub, sessionId, now);
    assert CreatePayment(db1, np, now).Success?;
    CountSetToOne(db1, row1, s.id, np, now);
    var db2 := CreatePayment(db1, np, now).value.0;
    assert RecordFirstPayment(db, s.id, Some(customerId), sub, sessionId, now)
        == UpdatePaymentSchedule(db2, s.id, FirstPaymentCounted, now).value.0;
    ActivatedThenCounted(s, sub.id, now);
  }

  /** Activation then the count set to one, whatever the row held. */
  lemma ActivatedThenCounted(s: PaymentSchedule, subscriptionId: string, now: int)
    ensures PatchedSchedule(PatchedSchedule(s, ActivatePatch(subscriptionId, now), now), FirstPaymentCounted, now)
            == s.(stripeSubscriptionId := Some(subscriptionId), status := Active,
                  nextPaymentDate := Some(now + ThirtyDays), paymentsCompleted := 1, updatedAt := now)
  {
  }

  /** After activation: the first payment appended, then the count set to one. */
  lemma CountSetToOne(db: Db, row: PaymentSchedule, id: Id, np: NewPayment, now: int)
    requires GetPaymentSchedule(db, id) == Some(row) && CreatePayment(db, np, now).Success?
    ensures var db2 := CreatePayment(db, np, now).value.0;
      UpdatePaymentSchedule(db2, id, FirstPaymentCounted, now).Success?
      && var db3 := UpdatePaymentSchedule(db2, id, FirstPaymentCounted, now).value.0;
      GetPaymentSchedule(db3, id) == Some(PatchedSchedule(row, FirstPaymentCounted, now))
      && |db3.payments| == |db.payments| + 1 && db3.payments[|db.payments|].paymentNumber == np.paymentNumber
  {
    var db2 := CreatePayment(db, np, now).value.0;
    assert GetPaymentSchedule(db2, id) == Some(row);
    ScheduleUpdateThenGet(db2, id, FirstPaymentCounted, now);
  }
}
