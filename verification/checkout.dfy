/** `POST /api/create-checkout-session`: the request is validated, the
    customer found by email or created and given a Stripe customer id, the
    penalty found by ticket number or created (from the search workbook when
    storage is up, with a minimal record otherwise), and a three-instalment
    schedule recorded. Stripe's side is reduced to the ids it hands back. */
module Checkout {
  import opened Wrappers
  import opened JsText
  import opened JsNumber
  import opened JsDate
  import opened Schema
  import opened Tables
  import opened RecordStore
  import opened Cells
  import opened BlobStore
  import opened SheetSearch
  import opened StorageRoutes

  /** The request body after `z.coerce.number()` has turned the amount into a number. */
  datatype CheckoutRequest = CheckoutRequest(
    email: string,
    pcnNumber: string,
    vehicleRegistration: string,
    penaltyAmount: JsNum)

  const InvalidEmailIssue := "Invalid email address"
  const PcnRequiredIssue := "PCN number is required"
  const VrmRequiredIssue := "Vehicle registration is required"
  const NotANumberIssue := "Expected number, received nan"
  const AmountPositiveIssue := "Penalty amount must be positive"

  /** What the schema accepts: an email address, two non-empty strings and a
      number above zero (infinity included). */
  predicate ValidRequest(req: CheckoutRequest, isEmail: string -> bool) {
    isEmail(req.email) && |req.pcnNumber| >= 1 && |req.vehicleRegistration| >= 1 && Positive(req.penaltyAmount)
  }

  /** The issue a number raises: NaN fails the type check, any other number
      not above zero the `positive` check. */
  function AmountIssues(x: JsNum): (r: seq<string>)
    ensures r == [] <==> Positive(x)
    ensures |r| <= 1
  {
    if x.NaN? then [NotANumberIssue]
    else if Positive(x) then []
    else [AmountPositiveIssue]
  }

  /** The issues of a failed parse, one per failing field in schema order. */
  function Issues(req: CheckoutRequest, isEmail: string -> bool): (r: seq<string>)
    ensures r == [] <==> ValidRequest(req, isEmail)
    ensures |r| <= 4
    ensures (InvalidEmailIssue in r) <==> !isEmail(req.email)
    ensures (PcnRequiredIssue in r) <==> req.pcnNumber == []
    ensures (VrmRequiredIssue in r) <==> req.vehicleRegistration == []
  {
    (if isEmail(req.email) then [] else [InvalidEmailIssue])
    + (if |req.pcnNumber| >= 1 then [] else [PcnRequiredIssue])
    + (if |req.vehicleRegistration| >= 1 then [] else [VrmRequiredIssue])
    + AmountIssues(req.penaltyAmount)
  }

  /** The ids Stripe returns for the customer, the subscription schedule and
      the checkout session it creates. */
  datatype StripeIds = StripeIds(customer: string, schedule: string, session: string, url: string)

  /** The metadata the checkout session carries to the webhook. */
  datatype SessionMetadata = SessionMetadata(customerId: Id, scheduleId: string, paymentScheduleId: Id)

  /** `{ sessionId, url, customerId }`, with the metadata the session holds. */
  datatype CheckoutReply = CheckoutReply(sessionId: string, url: string, customerId: Id, metadata: SessionMetadata)

  /** Both failures answer 400: a failed parse with its issues, anything
      thrown afterwards with its message. */
  datatype CheckoutError = ValidationFailed(issues: seq<string>) | Thrown(message: string)

  const ValidationFailedError := "Validation failed"

  // ---------------------------------------------------------------------------
  // The customer

  /** The customer with this email, created when there is none, and given the
      new Stripe customer id when its id is missing or empty (the route tests
      `customer.stripeCustomerId` for truthiness); a customer with a non-empty
      id is used as it is. */
  function CustomerStep(db: Db, req: CheckoutRequest, stripeCustomer: string, now: int): (r: (Db, Customer))
    ensures r.1.stripeCustomerId.Some?
    ensures r.0.penalties == db.penalties && r.0.schedules == db.schedules && r.0.payments == db.payments
    ensures var found := GetCustomerByEmail(db, req.email);
      found.Some? && Given(found.value.stripeCustomerId) ==> r == (db, found.value)
    ensures var found := GetCustomerByEmail(db, req.email);
      !(found.Some? && Given(found.value.stripeCustomerId)) ==> r.1.stripeCustomerId == Some(stripeCustomer)
    ensures GetCustomerByEmail(db, req.email).Some? ==> r.1.id == GetCustomerByEmail(db, req.email).value.id
  {
    var (db1, c) := FoundOrCreated(db, req, now);
    if Given(c.stripeCustomerId) then (db1, c)
    else
      assert db1.customers[IndexOf(db1.customers, c)] == c;
      UpdateCustomerStripeInfo(db1, c.id, stripeCustomer, None, None).value
  }

  /** The customer with this email, or a new one with the request's details. */
  function FoundOrCreated(db: Db, req: CheckoutRequest, now: int): (r: (Db, Customer))
    ensures r.1 in r.0.customers
    ensures GetCustomerByEmail(db, req.email).Some? ==> r == (db, GetCustomerByEmail(db, req.email).value)
    ensures GetCustomerByEmail(db, req.email).None? ==>
              r.1 == Customer(db.nextId, req.email, req.pcnNumber, req.vehicleRegistration, None, None, None, now)
              && r.0 == db.(customers := db.customers + [r.1], nextId := db.nextId + 1)
  {
    match GetCustomerByEmail(db, req.email)
    case Some(c) => (db, c)
    case None => CreateCustomer(db, NewCustomer(req.email, req.pcnNumber, req.vehicleRegistration), now).value
  }

  // ---------------------------------------------------------------------------
  // The penalty

  /** The first row of the search workbook for this ticket number, when
      storage is up and the search succeeds with a match. */
  function SheetMatch(c: Container, pcn: string, generic: string -> Time): (r: Option<SheetPenalty>)
    ensures r.Some? ==> StorageAvailable(c)
    ensures r.Some? && pcn != [] ==> r.value.ticketNo == pcn
  {
    if !StorageAvailable(c) then None
    else match SearchPenaltiesFromExcel(c, SearchFileName, Some(pcn), None, generic)
      case Failure(_) => None
      case Success(ps) =>
        if |ps| == 0 then None
        else
          ResultsMatchQuery(DataRows(Download(c, SearchFileName).value), Some(pcn), None, generic, ps[0]);
          Some(ps[0])
  }

  /** The penalty a search result becomes: its keys, site and charge (the
      charge text read as a number), the issue date when it has one and now
      otherwise, and no make, reason or badge. */
  function SheetRecord(sp: SheetPenalty, generic: string -> Time, now: int): (np: NewPenalty)
    ensures np.ticketNo == sp.ticketNo && np.vrm == sp.vrm && np.site == sp.site
    ensures np.status == Some(DefaultPenaltyStatus)
    ensures np.penaltyAmount == ParseFloat(sp.penaltyAmount)
    ensures sp.dateIssued.None? || sp.dateIssued.value == [] ==> np.dateIssued == Valid(now)
  {
    NewPenalty(sp.ticketNo, sp.vrm, None, ParseFloat(sp.penaltyAmount),
               if sp.dateIssued.Some? && sp.dateIssued.value != [] then generic(sp.dateIssued.value) else Valid(now),
               sp.site, None, None, Some("active"))
  }

  /** The record to try from the search workbook, if it has a match. */
  function SheetCandidate(c: Container, pcn: string, generic: string -> Time, now: int): (r: Option<NewPenalty>)
    ensures r.Some? ==> StorageAvailable(c)
    ensures r.Some? && pcn != [] ==> r.value.ticketNo == pcn
  {
    match SheetMatch(c, pcn, generic)
    case None => None
    case Some(sp) => Some(SheetRecord(sp, generic, now))
  }

  /** The minimal penalty: the request's ticket, registration and amount
      rounded to the penny, issued now, no optional details. */
  function MinimalRecord(pcn: string, vrm: string, amount: JsNum, now: int): (np: NewPenalty)
    ensures np.ticketNo == pcn && np.vrm == vrm && np.dateIssued == Valid(now)
    ensures np.vehicleMake.None? && np.site.None? && np.reasonForIssue.None? && np.badgeId.None?
    ensures np.status == Some(DefaultPenaltyStatus)
    ensures np.penaltyAmount.Finite? <==> amount.Finite?
  {
    NewPenalty(pcn, vrm, None, RoundedTo2(amount), Valid(now), None, None, None, Some("active"))
  }

  /** The minimal record's amount is the number the text `toFixed(2)`
      prints reads back as. */
  lemma MinimalAmountIsFixed2(pcn: string, vrm: string, amount: JsNum, now: int)
    ensures MinimalRecord(pcn, vrm, amount, now).penaltyAmount == ParseFloat(ToFixed2(amount))
  {
    ParseToFixed2(amount);
  }

  /** The penalty with this ticket number; failing that the candidate from
      the search workbook, whose failure is swallowed; failing that the
      minimal record, whose failure is thrown. */
  function FindOrCreatePenalty(db: Db, pcn: string, candidate: Option<NewPenalty>, minimal: NewPenalty, now: int)
    : (r: Result<(Db, Penalty), DbError>)
    ensures GetPenaltyByTicketNo(db, pcn).Some? ==> r == Success((db, GetPenaltyByTicketNo(db, pcn).value))
    ensures (GetPenaltyByTicketNo(db, pcn).None? && candidate.Some? && CreatePenalty(db, candidate.value, now).Success?)
              ==> r == CreatePenalty(db, candidate.value, now)
    ensures (GetPenaltyByTicketNo(db, pcn).None? && (candidate.None? || CreatePenalty(db, candidate.value, now).Failure?))
              ==> r == CreatePenalty(db, minimal, now)
    ensures r.Success? ==> (r.value.0 == db
                            || r.value.0 == db.(penalties := db.penalties + [r.value.1], nextId := db.nextId + 1))
  {
    match GetPenaltyByTicketNo(db, pcn)
    case Some(p) => Success((db, p))
    case None =>
      if candidate.Some? && CreatePenalty(db, candidate.value, now).Success? then CreatePenalty(db, candidate.value, now)
      else CreatePenalty(db, minimal, now)
  }

  // ---------------------------------------------------------------------------
  // The schedule

  /** `(x / 3).toFixed(2)` as a count of hundredths for a magnitude `|d|`:
      a third of `|d|` to the nearest hundredth, ties upwards. */
  function ThirdHundredths(d: Dec): (n: int)
    ensures d.exp >= -2 ==> NearestMultiple(Abs(d.mant) * Pow10(d.exp + 2), 3, n)
    ensures d.exp < -2 ==> NearestMultiple(Abs(d.mant), 3 * Pow10(-2 - d.exp), n)
  {
    if d.exp >= -2 then RoundDiv(Abs(d.mant) * Pow10(d.exp + 2), 3)
    else RoundDiv(Abs(d.mant), 3 * Pow10(-2 - d.exp))
  }

  /** The number `(x / 3).toFixed(2)` denotes: a third of `x` rounded to the
      penny, half away from zero; NaN and the infinities as they are. */
  function ThirdOf(x: JsNum): (r: JsNum)
    ensures x.Finite? <==> r.Finite?
    ensures !x.Finite? ==> r == x
    ensures x.Finite? ==> r.d.exp == -2 && Abs(r.d.mant) == Abs(ThirdHundredths(x.d))
  {
    match x
    case Finite(d) => Finite(Dec(if d.mant < 0 then -ThirdHundredths(d) else ThirdHundredths(d), -2))
    case _ => x
  }

  /** The schedule the checkout records: the whole amount, a third of it a
      month, three payments of which none made, active, and the Stripe
      schedule id; no subscription yet and no next payment date. */
  function StartSchedule(customerId: Id, penaltyId: Id, amount: JsNum, scheduleRef: string): (ns: NewSchedule)
    ensures ns.customerId == customerId && ns.penaltyId == penaltyId
    ensures ns.totalPayments == Some(3) && ns.paymentsCompleted == Some(0) && ns.status == Some(Active)
    ensures ns.stripeSubscriptionId.None? && ns.stripeScheduleId == Some(scheduleRef) && ns.nextPaymentDate.None?
  {
    NewSchedule(customerId, penaltyId, amount, ThirdOf(amount), Some(3), Some(0), Some(Active),
                None, Some(scheduleRef), None)
  }

  // ---------------------------------------------------------------------------
  // The route

  /** The route: the state after it, and the reply. Whatever the steps before
      a thrown error wrote stays written. */
  function CheckoutRoute(db: Db, c: Container, req: CheckoutRequest, isEmail: string -> bool,
                         generic: string -> Time, ids: StripeIds, now: int)
    : (r: (Db, Result<CheckoutReply, CheckoutError>))
    ensures !ValidRequest(req, isEmail) ==> r == (db, Failure(ValidationFailed(Issues(req, isEmail))))
    ensures r.1.Failure? && r.1.error.ValidationFailed? ==> r.1.error.issues != [] && r.0 == db
    ensures r.1.Success? ==> ValidRequest(req, isEmail)
  {
    if !ValidRequest(req, isEmail) then (db, Failure(ValidationFailed(Issues(req, isEmail))))
    else
      var (db1, customer) := CustomerStep(db, req, ids.customer, now);
      Enrol(db1, customer, req.pcnNumber, SheetCandidate(c, req.pcnNumber, generic, now),
            MinimalRecord(req.pcnNumber, req.vehicleRegistration, req.penaltyAmount, now), req.penaltyAmount, ids, now)
  }

  /** The steps after the customer's: the penalty, then the schedule; a
      thrown error answers with its message. */
  function Enrol(db: Db, customer: Customer, pcn: string, candidate: Option<NewPenalty>, minimal: NewPenalty,
                 amount: JsNum, ids: StripeIds, now: int): (r: (Db, Result<CheckoutReply, CheckoutError>))
    ensures r.1.Failure? ==> r.1.error.Thrown?
    ensures r.1.Success? ==> r.1.value == CheckoutReply(ids.session, ids.url, customer.id,
                                                         SessionMetadata(customer.id, ids.schedule, r.1.value.metadata.paymentScheduleId))
                              && r.1.value.metadata.paymentScheduleId < r.0.nextId
    ensures r.0.customers == db.customers && r.0.payments == db.payments
  {
    match FindOrCreatePenalty(db, pcn, candidate, minimal, now)
    case Failure(e) => (db, Failure(Thrown(Message(e))))
    case Success((db2, penalty)) =>
      match CreatePaymentSchedule(db2, StartSchedule(customer.id, penalty.id, amount, ids.schedule), now)
      case Failure(e) => (db2, Failure(Thrown(Message(e))))
      case Success((db3, schedule)) =>
        (db3, Success(CheckoutReply(ids.session, ids.url, customer.id,
                                    SessionMetadata(customer.id, ids.schedule, schedule.id))))
  }

  // ---------------------------------------------------------------------------
  // Properties

  /** The three instalments add up to the total to within a penny: a third
      rounded and the whole rounded are each within half a unit of the exact
      value. */
  lemma InstalmentsCoverTotal(d: Dec)
    ensures -1 <= 3 * ThirdHundredths(d) - Hundredths(d) <= 1
  {
    var m, t := ThirdHundredths(d), Hundredths(d) as int;
    if d.exp >= -2 {
      assert NearestMultiple(t, 3, m);
    } else {
      var b := Pow10(-2 - d.exp);
      var a := Abs(d.mant);
      assert -b <= 2 * (a - t * b) < b;
      assert -3 * b <= 2 * (a - m * (3 * b)) < 3 * b;
      WithinTwo(3 * m - t, b, 2 * (a - t * b) - 2 * (a - m * (3 * b)));
    }
  }

  /** `2kb` strictly between `-4b` and `4b`, for `b > 0`, means `|k| <= 1`. */
  lemma WithinTwo(k: int, b: int, e: int)
    requires b > 0 && e == 2 * k * b && -4 * b < e < 4 * b
    ensures -1 <= k <= 1
  {
  }

  /** Finding or creating the customer keeps the constraints, and the key
      then finds the customer, whose email is the request's. */
  lemma FoundOrCreatedConsistent(db: Db, req: CheckoutRequest, now: int)
    requires Consistent(db)
    ensures var (db', c) := FoundOrCreated(db, req, now);
      Consistent(db') && c.email == req.email && GetCustomer(db', c.id) == Some(c)
  {
    var (db1, c1) := FoundOrCreated(db, req, now);
    if GetCustomerByEmail(db, req.email).None? {
      CreateCustomerConsistent(db, NewCustomer(req.email, req.pcnNumber, req.vehicleRegistration), now);
    }
    DistinctFindKey(db1.customers, CustomerKey, IndexOf(db1.customers, c1));
  }

  /** Recording a Stripe customer id keeps the constraints, the email and the key. */
  lemma StripeCustomerRecorded(db: Db, c: Customer, stripeCustomer: string)
    requires Consistent(db) && GetCustomer(db, c.id) == Some(c)
    ensures UpdateCustomerStripeInfo(db, c.id, stripeCustomer, None, None).Success?
    ensures var (db', c') := UpdateCustomerStripeInfo(db, c.id, stripeCustomer, None, None).value;
      Consistent(db') && c'.email == c.email && c'.id == c.id && GetCustomer(db', c.id) == Some(c')
  {
    UpdateCustomerStripeInfoConsistent(db, c.id, stripeCustomer, None, None);
    var (db', c') := UpdateCustomerStripeInfo(db, c.id, stripeCustomer, None, None).value;
    var k := FindKey(db.customers, CustomerKey, c.id).value;
    assert db'.customers[k] == c';
    DistinctFindKey(db'.customers, CustomerKey, k);
  }

  /** The customer step keeps the constraints, and afterwards the key finds
      the customer it returns, whose email is the request's. */
  lemma CustomerStepConsistent(db: Db, req: CheckoutRequest, stripeCustomer: string, now: int)
    requires Consistent(db)
    ensures var (db', c) := CustomerStep(db, req, stripeCustomer, now);
      Consistent(db') && c.email == req.email && GetCustomer(db', c.id) == Some(c)
  {
    FoundOrCreatedConsistent(db, req, now);
    var (db1, c1) := FoundOrCreated(db, req, now);
    if !Given(c1.stripeCustomerId) {
      StripeCustomerRecorded(db1, c1, stripeCustomer);
    }
  }

  /** After finding or creating, the store still keeps its constraints and
      the ticket number finds the penalty returned, when both records to
      create carry that ticket number. */
  lemma FindOrCreateThenGet(db: Db, pcn: string, candidate: Option<NewPenalty>, minimal: NewPenalty, now: int)
    requires Consistent(db) && minimal.ticketNo == pcn
    requires candidate.Some? ==> candidate.value.ticketNo == pcn
    requires FindOrCreatePenalty(db, pcn, candidate, minimal, now).Success?
    ensures var (db', p) := FindOrCreatePenalty(db, pcn, candidate, minimal, now).value;
      Consistent(db') && p.ticketNo == pcn && GetPenaltyByTicketNo(db', pcn) == Some(p) && GetPenalty(db', p.id) == Some(p)
  {
    match GetPenaltyByTicketNo(db, pcn)
    case Some(q) =>
      var k := IndexOf(db.penalties, q);
      DistinctFindKey(db.penalties, PenaltyKey, k);
    case None =>
      var np := if candidate.Some? && CreatePenalty(db, candidate.value, now).Success? then candidate.value else minimal;
      CreatePenaltyThenGet(db, np, now);
      CreatePenaltyConsistent(db, np, now);
  }

  /** Rounding to the penny first changes nothing the money column sees. */
  lemma RoundedFits(d: Dec)
    ensures ToPence(RoundedTo2(Finite(d))) == ToPence(Finite(d))
  {
    var p := SignedHundredths(d);
    assert Pow10(0) == 1;
    assert Hundredths(Dec(p, -2)) == Abs(p);
  }

  /** A third of an amount that fits fits too. */
  lemma ThirdFits(d: Dec)
    requires FitsMoney(SignedHundredths(d))
    ensures ToPence(ThirdOf(Finite(d))).Success?
  {
    InstalmentsCoverTotal(d);
    var n := ThirdHundredths(d);
    assert Pow10(0) == 1;
    assert Hundredths(Dec(if d.mant < 0 then -n else n, -2)) == Abs(n);
  }

  /** A schedule whose amounts convert and whose references exist is
      recorded, and its key then finds it. */
  lemma ScheduleRecorded(db: Db, ns: NewSchedule, now: int)
    requires Consistent(db) && ToPence(ns.totalAmount).Success? && ToPence(ns.monthlyAmount).Success?
    requires GetCustomer(db, ns.customerId).Some? && GetPenalty(db, ns.penaltyId).Some?
    ensures CreatePaymentSchedule(db, ns, now).Success?
    ensures var (db', s) := CreatePaymentSchedule(db, ns, now).value;
      Consistent(db') && GetPaymentSchedule(db', s.id) == Some(s) && s.id == db.nextId
      && GetPenalty(db', ns.penaltyId) == GetPenalty(db, ns.penaltyId)
  {
    CreatePaymentScheduleConsistent(db, ns, now);
    var (db', s) := CreatePaymentSchedule(db, ns, now).value;
    var k := |db.schedules|;
    assert db'.schedules[k] == s;
    DistinctFindKey(db'.schedules, ScheduleKey, k);
  }

  /** The facts the last two steps need: the store and the customer found
      by key, both records to create carrying the ticket number, a minimal
      record that converts, and an amount whose pence fit. */
  predicate ReadyToEnrol(db: Db, customer: Customer, pcn: string, candidate: Option<NewPenalty>, minimal: NewPenalty, d: Dec) {
    Consistent(db) && GetCustomer(db, customer.id) == Some(customer)
    && minimal.ticketNo == pcn && (candidate.Some? ==> candidate.value.ticketNo == pcn)
    && minimal.dateIssued.Valid? && ToPence(minimal.penaltyAmount).Success?
    && FitsMoney(SignedHundredths(d))
  }

  /** With those facts the penalty and the schedule are both recorded, and
      the schedule of the reply starts at none of three payments made,
      active, for the customer and a penalty with the ticket number. */
  lemma EnrolStartsSchedule(db: Db, customer: Customer, pcn: string, candidate: Option<NewPenalty>, minimal: NewPenalty,
                            d: Dec, ids: StripeIds, now: int)
    requires ReadyToEnrol(db, customer, pcn, candidate, minimal, d)
    ensures var (db', reply) := Enrol(db, customer, pcn, candidate, minimal, Finite(d), ids, now);
      reply.Success? && Consistent(db') && StartedSchedule(db', reply.value, pcn, ids)
  {
    assert FindOrCreatePenalty(db, pcn, candidate, minimal, now).Success?;
    FindOrCreateThenGet(db, pcn, candidate, minimal, now);
    var (db2, penalty) := FindOrCreatePenalty(db, pcn, candidate, minimal, now).value;
    assert db2.customers == db.customers;
    ScheduleStarted(db2, customer.id, penalty, d, ids, now);
  }

  /** The schedule step, given a customer and a penalty on file and an
      amount whose pence fit: the schedule is recorded and started. */
  lemma ScheduleStarted(db: Db, customerId: Id, penalty: Penalty, d: Dec, ids: StripeIds, now: int)
    requires Consistent(db) && GetCustomer(db, customerId).Some? && GetPenalty(db, penalty.id) == Some(penalty)
    requires FitsMoney(SignedHundredths(d))
    ensures CreatePaymentSchedule(db, StartSchedule(customerId, penalty.id, Finite(d), ids.schedule), now).Success?
    ensures var (db', s) := CreatePaymentSchedule(db, StartSchedule(customerId, penalty.id, Finite(d), ids.schedule), now).value;
      Consistent(db')
      && StartedSchedule(db', CheckoutReply(ids.session, ids.url, customerId, SessionMetadata(customerId, ids.schedule, s.id)),
                         penalty.ticketNo, ids)
  {
    ThirdFits(d);
    assert ToPence(Finite(d)).Success?;
    ScheduleRecorded(db, StartSchedule(customerId, penalty.id, Finite(d), ids.schedule), now);
  }

  /** The reply's schedule as the checkout leaves it. */
  predicate StartedSchedule(db: Db, reply: CheckoutReply, pcn: string, ids: StripeIds) {
    var s := GetPaymentSchedule(db, reply.metadata.paymentScheduleId);
    s.Some? && s.value.customerId == reply.customerId
    && s.value.paymentsCompleted == 0 && s.value.totalPayments == 3 && s.value.status == Active
    && s.value.stripeScheduleId == Some(ids.schedule) && s.value.stripeSubscriptionId.None?
    && GetPenalty(db, s.value.penaltyId).Some? && GetPenalty(db, s.value.penaltyId).value.ticketNo == pcn
  }

  /** A valid request whose amount fits succeeds against a consistent store,
      and leaves the schedule of its reply started. */
  lemma CheckoutStartsSchedule(db: Db, c: Container, req: CheckoutRequest, isEmail: string -> bool,
                               generic: string -> Time, ids: StripeIds, now: int)
    requires Consistent(db) && ValidRequest(req, isEmail) && req.penaltyAmount.Finite?
    requires FitsMoney(SignedHundredths(req.penaltyAmount.d))
    ensures var (db', reply) := CheckoutRoute(db, c, req, isEmail, generic, ids, now);
      reply.Success? && Consistent(db') && StartedSchedule(db', reply.value, req.pcnNumber, ids)
  {
    var (db1, customer) := CustomerStep(db, req, ids.customer, now);
    CustomerStepConsistent(db, req, ids.customer, now);
    RoundedFits(req.penaltyAmount.d);
    EnrolStartsSchedule(db1, customer, req.pcnNumber, SheetCandidate(c, req.pcnNumber, generic, now),
                        MinimalRecord(req.pcnNumber, req.vehicleRegistration, req.penaltyAmount, now),
                        req.penaltyAmount.d, ids, now);
  }

  /** A penalty with the ticket number already on file is used as it is:
      no penalty is added or changed. */
  lemma ExistingPenaltyReused(db: Db, c: Container, req: CheckoutRequest, isEmail: string -> bool,
                              generic: string -> Time, ids: StripeIds, now: int)
    requires ValidRequest(req, isEmail)
    requires GetPenaltyByTicketNo(db, req.pcnNumber).Some?
    ensures CheckoutRoute(db, c, req, isEmail, generic, ids, now).0.penalties == db.penalties
  {
    var (db1, customer) := CustomerStep(db, req, ids.customer, now);
    assert GetPenaltyByTicketNo(db1, req.pcnNumber) == GetPenaltyByTicketNo(db, req.pcnNumber);
  }

  /** An infinite amount passes validation but overflows the money column
      whichever way the penalty is found: the reply is the overflow message. */
  lemma InfiniteAmountOverflows(db: Db, c: Container, req: CheckoutRequest, isEmail: string -> bool,
                                generic: string -> Time, ids: StripeIds, now: int)
    requires ValidRequest(req, isEmail) && req.penaltyAmount.PosInf?
    ensures CheckoutRoute(db, c, req, isEmail, generic, ids, now).1 == Failure(Thrown(OverflowText))
  {
    var (db1, customer) := CustomerStep(db, req, ids.customer, now);
    EnrolOverflows(db1, customer, req.pcnNumber, SheetCandidate(c, req.pcnNumber, generic, now),
                   MinimalRecord(req.pcnNumber, req.vehicleRegistration, req.penaltyAmount, now), ids, now);
  }

  /** With an infinite amount the last two steps end in the overflow: the
      minimal record cannot be stored, and neither can the schedule of a
      penalty found another way. */
  lemma EnrolOverflows(db: Db, customer: Customer, pcn: string, candidate: Option<NewPenalty>, minimal: NewPenalty,
                       ids: StripeIds, now: int)
    requires minimal.penaltyAmount == PosInf && minimal.dateIssued.Valid?
    ensures Enrol(db, customer, pcn, candidate, minimal, PosInf, ids, now).1 == Failure(Thrown(OverflowText))
  {
    match FindOrCreatePenalty(db, pcn, candidate, minimal, now)
    case Failure(e) =>
      assert e == NumericOverflow;
    case Success((db2, penalty)) =>
      assert ToPence(StartSchedule(customer.id, penalty.id, PosInf, ids.schedule).totalAmount) == Failure(NumericOverflow);
  }
}
