/** The four tables of the portal's database as records: customers, penalty
    charge notices, instalment schedules and the payments made against them.
    Money columns are `decimal(10, 2)`, held here as whole pence; timestamps
    are milliseconds from 1970; generated keys are natural numbers. */
module Schema {
  import opened Wrappers
  import opened JsNumber
  import opened JsDate

  type Id = nat

  /** `decimal(10, 2)`: at most eight digits before the point, so a stored
      amount is less than 10^10 pence in magnitude. */
  const MoneyLimit := 10_000_000_000

  predicate FitsMoney(p: int) {
    -MoneyLimit < p < MoneyLimit
  }

  datatype Customer = Customer(
    id: Id,
    email: string,
    pcnNumber: string,
    vehicleRegistration: string,
    stripeCustomerId: Option<string>,
    stripeSubscriptionId: Option<string>,
    stripeSubscriptionScheduleId: Option<string>,
    createdAt: int)

  /** A penalty charge notice; its status is free text (`active`, `paid`, ...). */
  datatype Penalty = Penalty(
    id: Id,
    ticketNo: string,
    vrm: string,
    vehicleMake: Option<string>,
    penaltyAmount: int,
    dateIssued: int,
    site: Option<string>,
    reasonForIssue: Option<string>,
    badgeId: Option<string>,
    status: string,
    createdAt: int,
    updatedAt: int)

  /** The schedule statuses the portal writes. */
  datatype ScheduleStatus = Active | Completed | Cancelled

  datatype PaymentSchedule = PaymentSchedule(
    id: Id,
    customerId: Id,
    penaltyId: Id,
    totalAmount: int,
    monthlyAmount: int,
    totalPayments: int,
    paymentsCompleted: int,
    status: ScheduleStatus,
    stripeSubscriptionId: Option<string>,
    stripeScheduleId: Option<string>,
    nextPaymentDate: Option<int>,
    createdAt: int,
    updatedAt: int)

  datatype PaymentStatus = PaymentPending | PaymentCompleted | PaymentFailed

  datatype Payment = Payment(
    id: Id,
    scheduleId: Id,
    customerId: Id,
    amount: int,
    paymentNumber: int,
    status: PaymentStatus,
    stripePaymentIntentId: Option<string>,
    stripeSessionId: Option<string>,
    paidAt: Option<int>,
    dueDate: int,
    createdAt: int)

  // ---------------------------------------------------------------------------
  // Insert shapes: what callers hand to the store. Absent optional columns
  // take the table's default.

  datatype NewCustomer = NewCustomer(email: string, pcnNumber: string, vehicleRegistration: string)

  /** A penalty to insert. The amount is the number whose decimal text is
      sent, the date the `Date` object bound to the timestamp column. */
  datatype NewPenalty = NewPenalty(
    ticketNo: string,
    vrm: string,
    vehicleMake: Option<string>,
    penaltyAmount: JsNum,
    dateIssued: Time,
    site: Option<string>,
    reasonForIssue: Option<string>,
    badgeId: Option<string>,
    status: Option<string>)

  datatype NewSchedule = NewSchedule(
    customerId: Id,
    penaltyId: Id,
    totalAmount: JsNum,
    monthlyAmount: JsNum,
    totalPayments: Option<int>,
    paymentsCompleted: Option<int>,
    status: Option<ScheduleStatus>,
    stripeSubscriptionId: Option<string>,
    stripeScheduleId: Option<string>,
    nextPaymentDate: Option<int>)

  /** A payment to insert; a customer reference that names no key (the
      empty string the webhook falls back to) is `None`. */
  datatype NewPayment = NewPayment(
    scheduleId: Id,
    customerId: Option<Id>,
    amount: JsNum,
    paymentNumber: int,
    status: Option<PaymentStatus>,
    stripePaymentIntentId: Option<string>,
    stripeSessionId: Option<string>,
    paidAt: Option<int>,
    dueDate: int)

  // ---------------------------------------------------------------------------
  // Column defaults

  const DefaultPenaltyStatus := "active"
  const DefaultTotalPayments := 3
  const DefaultPaymentsCompleted := 0
  const DefaultScheduleStatus := Active
  const DefaultPaymentStatus := PaymentPending

  // ---------------------------------------------------------------------------
  // Errors the database raises

  datatype DbError =
    | UniqueViolation(constraint: string)
    | ForeignKeyViolation(table: string, constraint: string)
    | NumericOverflow
    | NotANumber
    | InvalidTime
    | NotFound(message: string)

  /** The message an error carries when it reaches a caller's `catch`. */
  function Message(e: DbError): (m: string)
    ensures m != []
  {
    match e
    case UniqueViolation(c) => UniqueHead + c + Quote
    case ForeignKeyViolation(t, c) => ForeignKeyHead + t + ForeignKeyMiddle + c + Quote
    case NumericOverflow => OverflowText
    case NotANumber => NotANumberText
    case InvalidTime => InvalidTimeText
    case NotFound(m) => if m == [] then NotFoundText else m
  }

  const Quote := "\""
  const UniqueHead := "duplicate key value violates unique constraint \""
  const ForeignKeyHead := "insert or update on table \""
  const ForeignKeyMiddle := "\" violates foreign key constraint \""
  const OverflowText := "numeric field overflow"
  const NotANumberText := "invalid input syntax for type numeric"
  const InvalidTimeText := "Invalid time value"
  const NotFoundText := "not found"

  /** A number bound to a `decimal(10, 2)` column: rounded to the penny, half
      away from zero, and refused when infinite or too wide. */
  function ToPence(x: JsNum): (r: Result<int, DbError>)
    ensures r.Success? ==> x.Finite? && FitsMoney(r.value)
    ensures x.Finite? && FitsMoney(SignedHundredths(x.d)) ==> r == Success(SignedHundredths(x.d))
    ensures x.PosInf? || x.NegInf? ==> r == Failure(NumericOverflow)
  {
    match x
    case NaN => Failure(NotANumber)
    case Finite(d) =>
      var p := SignedHundredths(d);
      if FitsMoney(p) then Success(p) else Failure(NumericOverflow)
    case _ => Failure(NumericOverflow)
  }

  /** A `Date` bound to a timestamp column: an Invalid Date is refused. */
  function ToTimestamp(t: Time): (r: Result<int, DbError>)
    ensures r.Success? <==> t.Valid?
    ensures t.Valid? ==> r.value == t.ms
  {
    match t
    case Invalid => Failure(InvalidTime)
    case Valid(ms) => Success(ms)
  }
}
