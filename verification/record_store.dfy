/** `DatabaseStorage`: the Postgres-backed store as four tables held in
    storage order, with generated keys drawn from a counter, the unique and
    foreign-key constraints of the schema, and the "not found" errors of the
    update methods. Each operation returns the new state with its result or
    the error it throws. */
module RecordStore {
  import opened Wrappers
  import opened JsText
  import opened JsNumber
  import opened Calendar
  import opened JsDate
  import opened Schema
  import opened Tables
  import opened Like

  datatype Db = Db(
    customers: seq<Customer>,
    penalties: seq<Penalty>,
    schedules: seq<PaymentSchedule>,
    payments: seq<Payment>,
    nextId: Id)

  const EmptyDb := Db([], [], [], [], 0)

  function CustomerKey(c: Customer): Id { c.id }
  function CustomerEmail(c: Customer): string { c.email }
  function PenaltyKey(p: Penalty): Id { p.id }
  function TicketOf(p: Penalty): string { p.ticketNo }
  function ScheduleKey(s: PaymentSchedule): Id { s.id }
  function PaymentKey(p: Payment): Id { p.id }

  /** The constraints the database enforces: primary keys, the unique ticket
      and email columns, foreign keys, and keys below the counter. */
  predicate Consistent(db: Db) {
    Distinct(db.customers, CustomerKey) && Distinct(db.customers, CustomerEmail)
    && Distinct(db.penalties, PenaltyKey) && Distinct(db.penalties, TicketOf)
    && Distinct(db.schedules, ScheduleKey) && Distinct(db.payments, PaymentKey)
    && KeysBelow(db) && References(db) && MoneyFits(db)
  }

  /** Every schedule names an existing customer and penalty, every payment an
      existing schedule and customer. */
  predicate References(db: Db) {
    (forall i :: 0 <= i < |db.schedules| ==>
       db.schedules[i].customerId in Keys(db.customers, CustomerKey)
       && db.schedules[i].penaltyId in Keys(db.penalties, PenaltyKey))
    && (forall i :: 0 <= i < |db.payments| ==>
          db.payments[i].scheduleId in Keys(db.schedules, ScheduleKey)
          && db.payments[i].customerId in Keys(db.customers, CustomerKey))
  }

  /** Every stored amount fits its `decimal(10, 2)` column. */
  predicate MoneyFits(db: Db) {
    (forall i :: 0 <= i < |db.penalties| ==> FitsMoney(db.penalties[i].penaltyAmount))
    && (forall i :: 0 <= i < |db.schedules| ==>
          FitsMoney(db.schedules[i].totalAmount) && FitsMoney(db.schedules[i].monthlyAmount))
    && (forall i :: 0 <= i < |db.payments| ==> FitsMoney(db.payments[i].amount))
  }

  predicate KeysBelow(db: Db) {
    (forall i :: 0 <= i < |db.customers| ==> db.customers[i].id < db.nextId)
    && (forall i :: 0 <= i < |db.penalties| ==> db.penalties[i].id < db.nextId)
    && (forall i :: 0 <= i < |db.schedules| ==> db.schedules[i].id < db.nextId)
    && (forall i :: 0 <= i < |db.payments| ==> db.payments[i].id < db.nextId)
  }

  // ---------------------------------------------------------------------------
  // Customers

  /** `getCustomer`. */
  function GetCustomer(db: Db, id: Id): (r: Option<Customer>)
    ensures r.Some? ==> r.value in db.customers && r.value.id == id
    ensures r.None? <==> forall j :: 0 <= j < |db.customers| ==> db.customers[j].id != id
  {
    match FindKey(db.customers, CustomerKey, id)
    case None => None
    case Some(k) => Some(db.customers[k])
  }

  /** `getCustomerByEmail`. */
  function GetCustomerByEmail(db: Db, email: string): (r: Option<Customer>)
    ensures r.Some? ==> r.value in db.customers && r.value.email == email
    ensures r.None? <==> forall j :: 0 <= j < |db.customers| ==> db.customers[j].email != email
  {
    match FindKey(db.customers, CustomerEmail, email)
    case None => None
    case Some(k) => Some(db.customers[k])
  }

  /** `createCustomer`: a new row with a fresh key and no Stripe ids; an email
      already on file violates the unique constraint. */
  function CreateCustomer(db: Db, c: NewCustomer, now: int): (r: Result<(Db, Customer), DbError>)
    ensures r.Failure? <==> GetCustomerByEmail(db, c.email).Some?
    ensures r.Failure? ==> r.error == UniqueViolation("customers_email_unique")
    ensures r.Success? ==> var (db', row) := r.value;
      row == Customer(db.nextId, c.email, c.pcnNumber, c.vehicleRegistration, None, None, None, now)
      && db' == db.(customers := db.customers + [row], nextId := db.nextId + 1)
  {
    if FindKey(db.customers, CustomerEmail, c.email).Some? then Failure(UniqueViolation("customers_email_unique"))
    else
      var row := Customer(db.nextId, c.email, c.pcnNumber, c.vehicleRegistration, None, None, None, now);
      Success((db.(customers := db.customers + [row], nextId := db.nextId + 1), row))
  }

  /** `updateCustomerStripeInfo` through the query builder, which leaves out
      of the `SET` list every key whose value is `undefined`: the customer id is
      always written, an absent subscription or schedule id keeps the stored one. */
  function UpdateCustomerStripeInfo(db: Db, id: Id, customerRef: string, sub: Option<string>, sched: Option<string>)
    : (r: Result<(Db, Customer), DbError>)
    ensures r.Failure? <==> GetCustomer(db, id).None?
    ensures r.Failure? ==> r.error == NotFound("Customer not found")
    ensures r.Success? ==> var (db', row) := r.value; var prev := GetCustomer(db, id).value;
      row == prev.(stripeCustomerId := Some(customerRef),
                  stripeSubscriptionId := if sub.Some? then sub else prev.stripeSubscriptionId,
                  stripeSubscriptionScheduleId := if sched.Some? then sched else prev.stripeSubscriptionScheduleId)
      && exists k :: 0 <= k < |db.customers| && db.customers[k] == prev && db' == db.(customers := db.customers[k := row])
  {
    match FindKey(db.customers, CustomerKey, id)
    case None => Failure(NotFound("Customer not found"))
    case Some(k) =>
      var prev := db.customers[k];
      var row := prev.(stripeCustomerId := Some(customerRef),
                      stripeSubscriptionId := if sub.Some? then sub else prev.stripeSubscriptionId,
                      stripeSubscriptionScheduleId := if sched.Some? then sched else prev.stripeSubscriptionScheduleId);
      Success((db.(customers := db.customers[k := row]), row))
  }

  // ---------------------------------------------------------------------------
  // Penalties

  /** `getPenalty`. */
  function GetPenalty(db: Db, id: Id): (r: Option<Penalty>)
    ensures r.Some? ==> r.value in db.penalties && r.value.id == id
    ensures r.None? <==> forall j :: 0 <= j < |db.penalties| ==> db.penalties[j].id != id
  {
    match FindKey(db.penalties, PenaltyKey, id)
    case None => None
    case Some(k) => Some(db.penalties[k])
  }

  /** `getPenaltyByTicketNo`: the penalty with exactly this ticket number. */
  function GetPenaltyByTicketNo(db: Db, ticketNo: string): (r: Option<Penalty>)
    ensures r.Some? ==> r.value in db.penalties && r.value.ticketNo == ticketNo
    ensures r.None? <==> forall j :: 0 <= j < |db.penalties| ==> db.penalties[j].ticketNo != ticketNo
  {
    match FindKey(db.penalties, TicketOf, ticketNo)
    case None => None
    case Some(k) => Some(db.penalties[k])
  }

  /** The conditions `searchPenalties` puts in its `WHERE` clause: one
      `ILIKE '%filter%'` per truthy filter. */
  predicate SearchMatches(p: Penalty, ticketNo: Option<string>, vrm: Option<string>) {
    (ticketNo.None? || ticketNo.value == [] || ILike(p.ticketNo, Around(ticketNo.value)))
    && (vrm.None? || vrm.value == [] || ILike(p.vrm, Around(vrm.value)))
  }

  /** `searchPenalties`: nothing without a filter, otherwise every penalty
      meeting all the conditions, the filters put into the pattern as they are. */
  function SearchPenalties(db: Db, ticketNo: Option<string>, vrm: Option<string>): (r: seq<Penalty>)
    ensures (ticketNo.None? || ticketNo.value == []) && (vrm.None? || vrm.value == []) ==> r == []
    ensures forall p :: p in r ==> p in db.penalties && SearchMatches(p, ticketNo, vrm)
    ensures (ticketNo.Some? && ticketNo.value != []) || (vrm.Some? && vrm.value != []) ==>
      forall p :: p in db.penalties && SearchMatches(p, ticketNo, vrm) ==> p in r
  {
    if (ticketNo.None? || ticketNo.value == []) && (vrm.None? || vrm.value == []) then []
    else Filter(db.penalties, (p: Penalty) => SearchMatches(p, ticketNo, vrm))
  }

  /** The same search with the filters escaped, so that each is looked for
      as plain text. */
  function SearchPenaltiesEscaped(db: Db, ticketNo: Option<string>, vrm: Option<string>): (r: seq<Penalty>)
    ensures (ticketNo.None? || ticketNo.value == []) && (vrm.None? || vrm.value == []) ==> r == []
  {
    SearchPenalties(db, EscapeFilter(ticketNo), EscapeFilter(vrm))
  }

  function EscapeFilter(f: Option<string>): (r: Option<string>)
    ensures r.None? <==> f.None?
    ensures r.Some? ==> (r.value == [] <==> f.value == [])
  {
    match f
    case None => None
    case Some(x) => Some(Escape(x))
  }

  /** A penalty matches the search when each given filter occurs in the
      corresponding column, ignoring case. */
  predicate ContainsFilters(p: Penalty, ticketNo: Option<string>, vrm: Option<string>) {
    (ticketNo.None? || ticketNo.value == [] || ContainsCI(p.ticketNo, ticketNo.value))
    && (vrm.None? || vrm.value == [] || ContainsCI(p.vrm, vrm.value))
  }

  /** `createPenalty`: the date and amount are converted first, then the
      ticket number must be new; the row gets a fresh key, `active` unless a
      status is given, and both timestamps set to now. */
  function CreatePenalty(db: Db, np: NewPenalty, now: int): (r: Result<(Db, Penalty), DbError>)
    ensures np.dateIssued.Invalid? ==> r == Failure(InvalidTime)
    ensures np.dateIssued.Valid? && ToPence(np.penaltyAmount).Failure? ==> r == Failure(ToPence(np.penaltyAmount).error)
    ensures r.Success? <==> np.dateIssued.Valid? && ToPence(np.penaltyAmount).Success?
                            && GetPenaltyByTicketNo(db, np.ticketNo).None?
    ensures r.Success? ==> var (db', row) := r.value;
      row == PenaltyRow(db.nextId, np, ToPence(np.penaltyAmount).value, np.dateIssued.ms, now)
      && db' == db.(penalties := db.penalties + [row], nextId := db.nextId + 1)
  {
    match ToTimestamp(np.dateIssued)
    case Failure(e) => Failure(e)
    case Success(ms) =>
      match ToPence(np.penaltyAmount)
      case Failure(e) => Failure(e)
      case Success(pence) =>
        if FindKey(db.penalties, TicketOf, np.ticketNo).Some? then Failure(UniqueViolation("penalties_ticket_no_unique"))
        else
          var row := PenaltyRow(db.nextId, np, pence, ms, now);
          Success((db.(penalties := db.penalties + [row], nextId := db.nextId + 1), row))
  }

  /** The row an insert writes: the given columns, the defaults for the rest. */
  function PenaltyRow(id: Id, np: NewPenalty, pence: int, ms: int, now: int): (p: Penalty)
    ensures p.id == id && p.ticketNo == np.ticketNo && p.vrm == np.vrm && p.penaltyAmount == pence
    ensures p.status == np.status.GetOr(DefaultPenaltyStatus) && p.createdAt == now && p.updatedAt == now
  {
    Penalty(id, np.ticketNo, np.vrm, np.vehicleMake, pence, ms, np.site, np.reasonForIssue, np.badgeId,
            np.status.GetOr(DefaultPenaltyStatus), now, now)
  }

  /** `Partial<Penalty>`: a column is changed when its key is present; the
      optional columns can be set to null (`Some(None)`). */
  datatype PenaltyPatch = PenaltyPatch(
    ticketNo: Option<string>,
    vrm: Option<string>,
    vehicleMake: Option<Option<string>>,
    penaltyAmount: Option<JsNum>,
    dateIssued: Option<Time>,
    site: Option<Option<string>>,
    reasonForIssue: Option<Option<string>>,
    badgeId: Option<Option<string>>,
    status: Option<string>)

  const StatusOnly := PenaltyPatch(None, None, None, None, None, None, None, None, None)

  /** The converted amount and date of a patch, or the error converting them raises. */
  function ConvertPatch(u: PenaltyPatch): (r: Result<(Option<int>, Option<int>), DbError>)
    ensures r.Success? ==> (r.value.0.Some? <==> u.penaltyAmount.Some?) && (r.value.1.Some? <==> u.dateIssued.Some?)
    ensures r.Success? && u.penaltyAmount.Some? ==> ToPence(u.penaltyAmount.value) == Success(r.value.0.value)
    ensures r.Success? && u.dateIssued.Some? ==> u.dateIssued.value == Valid(r.value.1.value)
    ensures r.Failure? <==> (u.dateIssued.Some? && u.dateIssued.value.Invalid?)
                            || (u.penaltyAmount.Some? && ToPence(u.penaltyAmount.value).Failure?)
  {
    if u.dateIssued.Some? && u.dateIssued.value.Invalid? then Failure(InvalidTime)
    else if u.penaltyAmount.Some? && ToPence(u.penaltyAmount.value).Failure? then Failure(ToPence(u.penaltyAmount.value).error)
    else
      Success((if u.penaltyAmount.Some? then Some(ToPence(u.penaltyAmount.value).value) else None,
               if u.dateIssued.Some? then Some(u.dateIssued.value.ms) else None))
  }

  /** The row after a patch: supplied columns replaced, `updatedAt` now. */
  function Patched(p: Penalty, u: PenaltyPatch, amount: Option<int>, date: Option<int>, now: int): Penalty {
    p.(ticketNo := u.ticketNo.GetOr(p.ticketNo),
       vrm := u.vrm.GetOr(p.vrm),
       vehicleMake := u.vehicleMake.GetOr(p.vehicleMake),
       penaltyAmount := amount.GetOr(p.penaltyAmount),
       dateIssued := date.GetOr(p.dateIssued),
       site := u.site.GetOr(p.site),
       reasonForIssue := u.reasonForIssue.GetOr(p.reasonForIssue),
       badgeId := u.badgeId.GetOr(p.badgeId),
       status := u.status.GetOr(p.status),
       updatedAt := now)
  }

  /** `updatePenalty`: "Penalty not found" for an unknown key; otherwise the
      patched row replaces the old one in place, unless it would take
      another penalty's ticket number. The clash is stated for a table whose
      keys are distinct, as the primary key keeps them. */
  function UpdatePenalty(db: Db, id: Id, u: PenaltyPatch, now: int): (r: Result<(Db, Penalty), DbError>)
    ensures ConvertPatch(u).Failure? ==> r == Failure(ConvertPatch(u).error)
    ensures ConvertPatch(u).Success? && GetPenalty(db, id).None? ==> r == Failure(NotFound("Penalty not found"))
    ensures ConvertPatch(u).Success? && GetPenalty(db, id).Some? && Distinct(db.penalties, PenaltyKey) ==>
      (r.Success? <==> !(u.ticketNo.Some? && exists j :: 0 <= j < |db.penalties| && db.penalties[j].id != id
                                                         && db.penalties[j].ticketNo == u.ticketNo.value))
    ensures r.Failure? && ConvertPatch(u).Success? && GetPenalty(db, id).Some? ==>
      r.error == UniqueViolation("penalties_ticket_no_unique")
    ensures r.Success? ==> ConvertPatch(u).Success? && GetPenalty(db, id).Some?
    ensures r.Success? ==> var (db', row) := r.value; var c := ConvertPatch(u).value;
      row == Patched(GetPenalty(db, id).value, u, c.0, c.1, now)
      && exists k :: 0 <= k < |db.penalties| && db.penalties[k].id == id && db' == db.(penalties := db.penalties[k := row])
  {
    match ConvertPatch(u)
    case Failure(e) => Failure(e)
    case Success((amount, date)) =>
      match FindKey(db.penalties, PenaltyKey, id)
      case None => Failure(NotFound("Penalty not found"))
      case Some(k) =>
        var row := Patched(db.penalties[k], u, amount, date, now);
        if u.ticketNo.Some? && TicketTakenElsewhere(db.penalties, k, u.ticketNo.value) then
          Failure(UniqueViolation("penalties_ticket_no_unique"))
        else Success((db.(penalties := db.penalties[k := row]), row))
  }

  predicate TicketTakenElsewhere(ps: seq<Penalty>, k: nat, ticketNo: string) {
    exists j :: 0 <= j < |ps| && j != k && ps[j].ticketNo == ticketNo
  }

  // ---------------------------------------------------------------------------
  // Payment schedules

  /** `getPaymentSchedule`. */
  function GetPaymentSchedule(db: Db, id: Id): (r: Option<PaymentSchedule>)
    ensures r.Some? ==> r.value in db.schedules && r.value.id == id
    ensures r.None? <==> forall j :: 0 <= j < |db.schedules| ==> db.schedules[j].id != id
  {
    match FindKey(db.schedules, ScheduleKey, id)
    case None => None
    case Some(k) => Some(db.schedules[k])
  }

  /** `getPaymentScheduleByCustomerId`: the customer's schedules in storage order. */
  function GetPaymentSchedulesByCustomer(db: Db, customerId: Id): (r: seq<PaymentSchedule>)
    ensures forall s :: s in r <==> s in db.schedules && s.customerId == customerId
  {
    Filter(db.schedules, (s: PaymentSchedule) => s.customerId == customerId)
  }

  /** `createPaymentSchedule`: amounts converted, then both references
      checked; absent columns take their defaults (3 payments, none made,
      active). */
  function CreatePaymentSchedule(db: Db, ns: NewSchedule, now: int): (r: Result<(Db, PaymentSchedule), DbError>)
    ensures r.Success? <==> ToPence(ns.totalAmount).Success? && ToPence(ns.monthlyAmount).Success?
                            && GetCustomer(db, ns.customerId).Some? && GetPenalty(db, ns.penaltyId).Some?
    ensures r.Success? ==> var (db', row) := r.value;
      row.id == db.nextId && row.customerId == ns.customerId && row.penaltyId == ns.penaltyId
      && row.totalAmount == ToPence(ns.totalAmount).value && row.monthlyAmount == ToPence(ns.monthlyAmount).value
      && row.totalPayments == ns.totalPayments.GetOr(DefaultTotalPayments)
      && row.paymentsCompleted == ns.paymentsCompleted.GetOr(DefaultPaymentsCompleted)
      && row.status == ns.status.GetOr(DefaultScheduleStatus)
      && db' == db.(schedules := db.schedules + [row], nextId := db.nextId + 1)
  {
    match ToPence(ns.totalAmount)
    case Failure(e) => Failure(e)
    case Success(total) =>
      match ToPence(ns.monthlyAmount)
      case Failure(e) => Failure(e)
      case Success(monthly) =>
        if FindKey(db.customers, CustomerKey, ns.customerId).None? then
          Failure(ForeignKeyViolation("payment_schedules", "payment_schedules_customer_id_customers_id_fk"))
        else if FindKey(db.penalties, PenaltyKey, ns.penaltyId).None? then
          Failure(ForeignKeyViolation("payment_schedules", "payment_schedules_penalty_id_penalties_id_fk"))
        else
          var row := PaymentSchedule(db.nextId, ns.customerId, ns.penaltyId, total, monthly,
                                     ns.totalPayments.GetOr(DefaultTotalPayments),
                                     ns.paymentsCompleted.GetOr(DefaultPaymentsCompleted),
                                     ns.status.GetOr(DefaultScheduleStatus),
                                     ns.stripeSubscriptionId, ns.stripeScheduleId, ns.nextPaymentDate, now, now);
          Success((db.(schedules := db.schedules + [row], nextId := db.nextId + 1), row))
  }

  /** `Partial<PaymentSchedule>` as the webhook uses it. */
  datatype SchedulePatch = SchedulePatch(
    stripeSubscriptionId: Option<string>,
    status: Option<ScheduleStatus>,
    nextPaymentDate: Option<Option<int>>,
    paymentsCompleted: Option<int>)

  function PatchedSchedule(s: PaymentSchedule, u: SchedulePatch, now: int): PaymentSchedule {
    s.(stripeSubscriptionId := if u.stripeSubscriptionId.Some? then u.stripeSubscriptionId else s.stripeSubscriptionId,
       status := u.status.GetOr(s.status),
       nextPaymentDate := u.nextPaymentDate.GetOr(s.nextPaymentDate),
       paymentsCompleted := u.paymentsCompleted.GetOr(s.paymentsCompleted),
       updatedAt := now)
  }

  /** `updatePaymentSchedule`: "Payment schedule not found" for an unknown
      key; otherwise the patched row replaces the old one in place. */
  function UpdatePaymentSchedule(db: Db, id: Id, u: SchedulePatch, now: int): (r: Result<(Db, PaymentSchedule), DbError>)
    ensures r.Failure? <==> GetPaymentSchedule(db, id).None?
    ensures r.Failure? ==> r.error == NotFound("Payment schedule not found")
    ensures r.Success? ==> var (db', row) := r.value;
      row == PatchedSchedule(GetPaymentSchedule(db, id).value, u, now)
      && exists k :: 0 <= k < |db.schedules| && db.schedules[k].id == id && db' == db.(schedules := db.schedules[k := row])
  {
    match FindKey(db.schedules, ScheduleKey, id)
    case None => Failure(NotFound("Payment schedule not found"))
    case Some(k) =>
      var row := PatchedSchedule(db.schedules[k], u, now);
      Success((db.(schedules := db.schedules[k := row]), row))
  }

  // ---------------------------------------------------------------------------
  // Payments

  /** `createPayment`: the amount converted, then the schedule and the
      customer must exist. */
  function CreatePayment(db: Db, np: NewPayment, now: int): (r: Result<(Db, Payment), DbError>)
    ensures r.Success? <==> ToPence(np.amount).Success? && GetPaymentSchedule(db, np.scheduleId).Some?
                            && np.customerId.Some? && GetCustomer(db, np.customerId.value).Some?
    ensures r.Success? ==> var (db', row) := r.value;
      row.id == db.nextId && row.scheduleId == np.scheduleId && row.customerId == np.customerId.value
      && row.amount == ToPence(np.amount).value && row.paymentNumber == np.paymentNumber
      && row.status == np.status.GetOr(DefaultPaymentStatus)
      && db' == db.(payments := db.payments + [row], nextId := db.nextId + 1)
  {
    match ToPence(np.amount)
    case Failure(e) => Failure(e)
    case Success(amount) =>
      if FindKey(db.schedules, ScheduleKey, np.scheduleId).None? then
        Failure(ForeignKeyViolation("payments", "payments_schedule_id_payment_schedules_id_fk"))
      else if np.customerId.None? || FindKey(db.customers, CustomerKey, np.customerId.value).None? then
        Failure(ForeignKeyViolation("payments", "payments_customer_id_customers_id_fk"))
      else
        var row := Payment(db.nextId, np.scheduleId, np.customerId.value, amount, np.paymentNumber,
                           np.status.GetOr(DefaultPaymentStatus), np.stripePaymentIntentId, np.stripeSessionId,
                           np.paidAt, np.dueDate, now);
        Success((db.(payments := db.payments + [row], nextId := db.nextId + 1), row))
  }

  /** `getPayment`. */
  function GetPayment(db: Db, id: Id): (r: Option<Payment>)
    ensures r.Some? ==> r.value in db.payments && r.value.id == id
    ensures r.None? <==> forall j :: 0 <= j < |db.payments| ==> db.payments[j].id != id
  {
    match FindKey(db.payments, PaymentKey, id)
    case None => None
    case Some(k) => Some(db.payments[k])
  }

  /** `getPaymentsByScheduleId`: the schedule's payments in storage order. */
  function GetPaymentsBySchedule(db: Db, scheduleId: Id): (r: seq<Payment>)
    ensures forall p :: p in r <==> p in db.payments && p.scheduleId == scheduleId
  {
    Filter(db.payments, (p: Payment) => p.scheduleId == scheduleId)
  }

  /** The columns of `Partial<Payment>` a caller changes after the fact. */
  datatype PaymentPatch = PaymentPatch(
    status: Option<PaymentStatus>,
    stripePaymentIntentId: Option<Option<string>>,
    paidAt: Option<Option<int>>)

  /** `updatePayment`: "Payment not found" for an unknown key; otherwise the
      supplied columns change and nothing else (payments carry no `updatedAt`). */
  function UpdatePayment(db: Db, id: Id, u: PaymentPatch): (r: Result<(Db, Payment), DbError>)
    ensures r.Failure? <==> GetPayment(db, id).None?
    ensures r.Failure? ==> r.error == NotFound("Payment not found")
    ensures r.Success? ==> var (db', row) := r.value; var prev := GetPayment(db, id).value;
      row == prev.(status := u.status.GetOr(prev.status),
                   stripePaymentIntentId := u.stripePaymentIntentId.GetOr(prev.stripePaymentIntentId),
                   paidAt := u.paidAt.GetOr(prev.paidAt))
      && exists k :: 0 <= k < |db.payments| && db.payments[k] == prev && db' == db.(payments := db.payments[k := row])
  {
    match FindKey(db.payments, PaymentKey, id)
    case None => Failure(NotFound("Payment not found"))
    case Some(k) =>
      var prev := db.payments[k];
      var row := prev.(status := u.status.GetOr(prev.status),
                       stripePaymentIntentId := u.stripePaymentIntentId.GetOr(prev.stripePaymentIntentId),
                       paidAt := u.paidAt.GetOr(prev.paidAt));
      Success((db.(payments := db.payments[k := row]), row))
  }

  // ---------------------------------------------------------------------------
  // Sample data

  /** The three sample penalties, numbered from key `first`. Their issue
      times are read as UTC. */
  function SamplePenalties(first: Id, now: int): (ps: seq<Penalty>)
    ensures |ps| == 3
    ensures forall i :: 0 <= i < 3 ==> ps[i].id == first + i && ps[i].status == DefaultPenaltyStatus
  {
    [ Penalty(first, "A11623936", "PG23WCR", Some("Audi"), 6000, SampleTime(2025, 8, 21, 3, 5, 9),
              Some("Waitrose Dorking"), Some("No Valid Parking Payment Found"), Some("ANPR"), "active", now, now),
      Penalty(first + 1, "B22734847", "AB12XYZ", Some("BMW"), 9000, SampleTime(2025, 9, 1, 14, 30, 0),
              Some("High Street Car Park"), Some("Exceeded Maximum Stay"), Some("ANPR"), "active", now, now),
      Penalty(first + 2, "C33845958", "CD34EFG", Some("Ford"), 7500, SampleTime(2025, 9, 5, 10, 15, 0),
              Some("Town Centre Multi-storey"), Some("Parked Without Valid Ticket"), Some("PATROL"), "active", now, now) ]
  }

  /** `new Date('YYYY-MM-DDThh:mm:ss')` for a valid date and time. */
  function SampleTime(y: int, m: int, d: int, h: int, mi: int, s: int): int
    requires ValidFields(Fields(y, m, d, h, mi, s))
  {
    MsOf(Fields(y, m, d, h, mi, s))
  }

  /** `initializeSampleData`: the samples go in only when there are no
      penalties at all. */
  function InitializeSampleData(db: Db, now: int): (db': Db)
    ensures |db.penalties| > 0 ==> db' == db
    ensures |db.penalties| == 0 ==> db'.penalties == SamplePenalties(db.nextId, now) && db'.nextId == db.nextId + 3
    ensures db'.customers == db.customers && db'.schedules == db.schedules && db'.payments == db.payments
  {
    if |db.penalties| > 0 then db
    else db.(penalties := SamplePenalties(db.nextId, now), nextId := db.nextId + 3)
  }

  // ---------------------------------------------------------------------------
  // Properties

  lemma EmptyConsistent()
    ensures Consistent(EmptyDb)
  {
  }

  // Each table change that keeps the constraints, proved once.

  lemma AppendCustomer(db: Db, row: Customer)
    requires Consistent(db) && row.id == db.nextId
    requires forall j :: 0 <= j < |db.customers| ==> db.customers[j].email != row.email
    ensures Consistent(db.(customers := db.customers + [row], nextId := db.nextId + 1))
  {
    DistinctAppend(db.customers, row, CustomerKey);
    DistinctAppend(db.customers, row, CustomerEmail);
    KeysAppend(db.customers, row, CustomerKey);
  }

  lemma ReplaceCustomer(db: Db, k: nat, row: Customer)
    requires Consistent(db) && k < |db.customers|
    requires row.id == db.customers[k].id && row.email == db.customers[k].email
    ensures Consistent(db.(customers := db.customers[k := row]))
  {
    DistinctReplace(db.customers, k, row, CustomerKey);
    DistinctReplace(db.customers, k, row, CustomerEmail);
    KeysReplace(db.customers, k, row, CustomerKey);
  }

  lemma AppendPenalty(db: Db, row: Penalty)
    requires Consistent(db) && row.id == db.nextId && FitsMoney(row.penaltyAmount)
    requires forall j :: 0 <= j < |db.penalties| ==> db.penalties[j].ticketNo != row.ticketNo
    ensures Consistent(db.(penalties := db.penalties + [row], nextId := db.nextId + 1))
  {
    DistinctAppend(db.penalties, row, PenaltyKey);
    DistinctAppend(db.penalties, row, TicketOf);
    KeysAppend(db.penalties, row, PenaltyKey);
  }

  lemma ReplacePenalty(db: Db, k: nat, row: Penalty)
    requires Consistent(db) && k < |db.penalties|
    requires row.id == db.penalties[k].id && FitsMoney(row.penaltyAmount)
    requires forall j :: 0 <= j < |db.penalties| && j != k ==> db.penalties[j].ticketNo != row.ticketNo
    ensures Consistent(db.(penalties := db.penalties[k := row]))
  {
    DistinctReplace(db.penalties, k, row, PenaltyKey);
    DistinctReplace(db.penalties, k, row, TicketOf);
    KeysReplace(db.penalties, k, row, PenaltyKey);
  }

  lemma AppendSchedule(db: Db, row: PaymentSchedule)
    requires Consistent(db) && row.id == db.nextId
    requires FitsMoney(row.totalAmount) && FitsMoney(row.monthlyAmount)
    requires row.customerId in Keys(db.customers, CustomerKey) && row.penaltyId in Keys(db.penalties, PenaltyKey)
    ensures Consistent(db.(schedules := db.schedules + [row], nextId := db.nextId + 1))
  {
    DistinctAppend(db.schedules, row, ScheduleKey);
    KeysAppend(db.schedules, row, ScheduleKey);
  }

  lemma ReplaceSchedule(db: Db, k: nat, row: PaymentSchedule)
    requires Consistent(db) && k < |db.schedules|
    requires row.id == db.schedules[k].id
    requires row.customerId == db.schedules[k].customerId && row.penaltyId == db.schedules[k].penaltyId
    requires row.totalAmount == db.schedules[k].totalAmount && row.monthlyAmount == db.schedules[k].monthlyAmount
    ensures Consistent(db.(schedules := db.schedules[k := row]))
  {
    DistinctReplace(db.schedules, k, row, ScheduleKey);
    KeysReplace(db.schedules, k, row, ScheduleKey);
  }

  lemma AppendPayment(db: Db, row: Payment)
    requires Consistent(db) && row.id == db.nextId && FitsMoney(row.amount)
    requires row.scheduleId in Keys(db.schedules, ScheduleKey) && row.customerId in Keys(db.customers, CustomerKey)
    ensures Consistent(db.(payments := db.payments + [row], nextId := db.nextId + 1))
  {
    DistinctAppend(db.payments, row, PaymentKey);
  }

  lemma ReplacePayment(db: Db, k: nat, row: Payment)
    requires Consistent(db) && k < |db.payments|
    requires row.id == db.payments[k].id && row.amount == db.payments[k].amount
    requires row.scheduleId == db.payments[k].scheduleId && row.customerId == db.payments[k].customerId
    ensures Consistent(db.(payments := db.payments[k := row]))
  {
    DistinctReplace(db.payments, k, row, PaymentKey);
  }

  // The operations.

  /** A new customer gets a key no row had, so the constraints still hold. */
  lemma CreateCustomerConsistent(db: Db, c: NewCustomer, now: int)
    requires Consistent(db) && CreateCustomer(db, c, now).Success?
    ensures Consistent(CreateCustomer(db, c, now).value.0)
  {
    AppendCustomer(db, CreateCustomer(db, c, now).value.1);
  }

  /** After `createCustomer` the row is found by key and by email. */
  lemma CreateCustomerThenGet(db: Db, c: NewCustomer, now: int)
    requires Consistent(db) && CreateCustomer(db, c, now).Success?
    ensures var (db', row) := CreateCustomer(db, c, now).value;
      GetCustomer(db', row.id) == Some(row) && GetCustomerByEmail(db', c.email) == Some(row)
  {
    var (db', row) := CreateCustomer(db, c, now).value;
    CreateCustomerConsistent(db, c, now);
    var k := |db.customers|;
    assert db'.customers[k] == row;
    DistinctFindKey(db'.customers, CustomerKey, k);
    DistinctFindKey(db'.customers, CustomerEmail, k);
  }

  /** Writing Stripe ids touches neither key nor email. */
  lemma UpdateCustomerStripeInfoConsistent(db: Db, id: Id, customerRef: string, sub: Option<string>, sched: Option<string>)
    requires Consistent(db) && UpdateCustomerStripeInfo(db, id, customerRef, sub, sched).Success?
    ensures Consistent(UpdateCustomerStripeInfo(db, id, customerRef, sub, sched).value.0)
  {
    var k := FindKey(db.customers, CustomerKey, id).value;
    ReplaceCustomer(db, k, UpdateCustomerStripeInfo(db, id, customerRef, sub, sched).value.1);
  }

  /** A new penalty keeps the constraints: fresh key, new ticket, amount that fits. */
  lemma CreatePenaltyConsistent(db: Db, np: NewPenalty, now: int)
    requires Consistent(db) && CreatePenalty(db, np, now).Success?
    ensures Consistent(CreatePenalty(db, np, now).value.0)
  {
    AppendPenalty(db, CreatePenalty(db, np, now).value.1);
  }

  /** After `createPenalty` the row is found by key and by ticket number. */
  lemma CreatePenaltyThenGet(db: Db, np: NewPenalty, now: int)
    requires Consistent(db) && CreatePenalty(db, np, now).Success?
    ensures var (db', row) := CreatePenalty(db, np, now).value;
      GetPenalty(db', row.id) == Some(row) && GetPenaltyByTicketNo(db', np.ticketNo) == Some(row)
  {
    var (db', row) := CreatePenalty(db, np, now).value;
    CreatePenaltyConsistent(db, np, now);
    var k := |db.penalties|;
    assert db'.penalties[k] == row;
    DistinctFindKey(db'.penalties, PenaltyKey, k);
    DistinctFindKey(db'.penalties, TicketOf, k);
  }

  /** A patch keeps the constraints: the key is kept, a ticket number held by
      another row is refused, and amounts are converted before they are stored. */
  lemma UpdatePenaltyConsistent(db: Db, id: Id, u: PenaltyPatch, now: int)
    requires Consistent(db) && UpdatePenalty(db, id, u, now).Success?
    ensures Consistent(UpdatePenalty(db, id, u, now).value.0)
  {
    var k := FindKey(db.penalties, PenaltyKey, id).value;
    var row := UpdatePenalty(db, id, u, now).value.1;
    assert forall j :: 0 <= j < |db.penalties| && j != k ==> db.penalties[j].ticketNo != row.ticketNo by {
      if u.ticketNo.None? {
        assert row.ticketNo == db.penalties[k].ticketNo;
      }
    }
    ReplacePenalty(db, k, row);
  }

  /** After `updatePenalty` the key finds the patched row. */
  lemma UpdatePenaltyThenGet(db: Db, id: Id, u: PenaltyPatch, now: int)
    requires Consistent(db) && UpdatePenalty(db, id, u, now).Success?
    ensures var (db', row) := UpdatePenalty(db, id, u, now).value;
      GetPenalty(db', id) == Some(row) && row.id == id
  {
    var k := FindKey(db.penalties, PenaltyKey, id).value;
    var (db', row) := UpdatePenalty(db, id, u, now).value;
    UpdatePenaltyConsistent(db, id, u, now);
    assert db'.penalties[k] == row;
    DistinctFindKey(db'.penalties, PenaltyKey, k);
  }

  /** A new schedule keeps the constraints: its references were checked. */
  lemma CreatePaymentScheduleConsistent(db: Db, ns: NewSchedule, now: int)
    requires Consistent(db) && CreatePaymentSchedule(db, ns, now).Success?
    ensures Consistent(CreatePaymentSchedule(db, ns, now).value.0)
  {
    FindKeyKeys(db.customers, CustomerKey, ns.customerId);
    FindKeyKeys(db.penalties, PenaltyKey, ns.penaltyId);
    AppendSchedule(db, CreatePaymentSchedule(db, ns, now).value.1);
  }

  /** A schedule patch touches no key, reference or amount. */
  lemma UpdatePaymentScheduleConsistent(db: Db, id: Id, u: SchedulePatch, now: int)
    requires Consistent(db) && UpdatePaymentSchedule(db, id, u, now).Success?
    ensures Consistent(UpdatePaymentSchedule(db, id, u, now).value.0)
  {
    var k := FindKey(db.schedules, ScheduleKey, id).value;
    ReplaceSchedule(db, k, UpdatePaymentSchedule(db, id, u, now).value.1);
  }

  /** A new payment keeps the constraints: its references were checked. */
  lemma CreatePaymentConsistent(db: Db, np: NewPayment, now: int)
    requires Consistent(db) && CreatePayment(db, np, now).Success?
    ensures Consistent(CreatePayment(db, np, now).value.0)
  {
    FindKeyKeys(db.schedules, ScheduleKey, np.scheduleId);
    FindKeyKeys(db.customers, CustomerKey, np.customerId.value);
    AppendPayment(db, CreatePayment(db, np, now).value.1);
  }

  /** A payment patch touches no key, reference or amount. */
  lemma UpdatePaymentConsistent(db: Db, id: Id, u: PaymentPatch)
    requires Consistent(db) && UpdatePayment(db, id, u).Success?
    ensures Consistent(UpdatePayment(db, id, u).value.0)
  {
    var k := FindKey(db.payments, PaymentKey, id).value;
    ReplacePayment(db, k, UpdatePayment(db, id, u).value.1);
  }

  /** Loading the samples into a consistent store keeps it consistent. */
  lemma InitializeSampleDataConsistent(db: Db, now: int)
    requires Consistent(db)
    ensures Consistent(InitializeSampleData(db, now))
  {
    if |db.penalties| == 0 {
      assert Keys(db.penalties, PenaltyKey) == {};
      var ps := SamplePenalties(db.nextId, now);
      assert Distinct(ps, TicketOf);
      KeysAppend([], ps[0], PenaltyKey);
    }
  }

  /** Loading the samples a second time changes nothing. */
  lemma InitializeSampleDataIdempotent(db: Db, now: int, later: int)
    ensures InitializeSampleData(InitializeSampleData(db, now), later) == InitializeSampleData(db, now)
  {
  }

  /** With the filters escaped, the search returns exactly the penalties
      containing every given filter, ignoring case. */
  lemma {:induction false} SearchEscapedFinds(db: Db, ticketNo: Option<string>, vrm: Option<string>, p: Penalty)
    requires (ticketNo.Some? && ticketNo.value != []) || (vrm.Some? && vrm.value != [])
    ensures p in SearchPenaltiesEscaped(db, ticketNo, vrm) <==> p in db.penalties && ContainsFilters(p, ticketNo, vrm)
  {
    if ticketNo.Some? { EscapedContains(p.ticketNo, ticketNo.value); }
    if vrm.Some? { EscapedContains(p.vrm, vrm.value); }
  }

  /** Filters without wildcards or backslashes are found the same way by
      both searches. */
  lemma SearchPlainAgrees(db: Db, ticketNo: Option<string>, vrm: Option<string>)
    requires ticketNo.Some? ==> forall i :: 0 <= i < |ticketNo.value| ==> !IsMeta(ticketNo.value[i])
    requires vrm.Some? ==> forall i :: 0 <= i < |vrm.value| ==> !IsMeta(vrm.value[i])
    ensures SearchPenalties(db, ticketNo, vrm) == SearchPenaltiesEscaped(db, ticketNo, vrm)
  {
    if ticketNo.Some? { EscapePlain(ticketNo.value); }
    if vrm.Some? { EscapePlain(vrm.value); }
    assert EscapeFilter(ticketNo) == ticketNo && EscapeFilter(vrm) == vrm;
  }

  /** As written, a search for the ticket filter `A_` returns a penalty
      whose ticket `AB` does not contain `A_`. */
  lemma SearchUnderscoreOverMatches(p: Penalty)
    requires p.ticketNo == "AB"
    ensures p in SearchPenalties(EmptyDb.(penalties := [p]), Some("A_"), None)
    ensures !ContainsFilters(p, Some("A_"), None)
  {
    UnderscoreIsWildcard();
    assert SearchMatches(p, Some("A_"), None);
  }
}
